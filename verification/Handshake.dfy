/** Cookies and the server's side of the handshake, as functions on the server's value. */
module Handshake {
  import opened Words
  import opened Wire
  import opened Engine
  import opened Scheduler

  /** COOKIE_SECRET_SIZE bytes, as words. */
  type Secret = s: seq<uint32> | |s| == 4 witness seq(4, _ => 0)

  /** SHA-256 over the secret, usec_per_pkt and the address: any function. */
  type Digest = (Secret, uint32, Addr) -> Cookie

  datatype Keys = Keys(epoch: uint32, secret: Secret, prevEpoch: uint32, prevSecret: Secret)

  datatype Server = Server(keys: Keys, sessions: map<Addr, Sess>)

  /** RotateCookieSecrets; the fresh secret is what the random generator yields. */
  function Rotate(k: Keys, newEpoch: uint32, random: Secret): Keys {
    Keys(newEpoch, random, k.epoch, k.secret)
  }

  /** MaybeRotateCookieSecrets looks at the wall clock only if this 64-bit difference from the
      low 32 bits of the time of the last look exceeds a second. */
  predicate Looks(last: uint32, now: uint64) { U64(now - last) > 1_000_000 }

  /** A look rotates if the wall clock is in another 64-second epoch. */
  function MaybeRotate(k: Keys, last: uint32, now: uint64, wallSeconds: uint64, random: Secret): Keys {
    if Looks(last, now) && U32(wallSeconds / 64) != k.epoch then Rotate(k, U32(wallSeconds / 64), random) else k
  }

  /** A call looks if the last look is more than a second old, as meant; but the last look is taken
      for older than that whenever the clock no longer fitted 32 bits, as it does for its
      first 71 minutes. From then on every call looks. */
  lemma {:induction false} ThrottledIff(before: uint64, now: uint64)
    requires before <= now
    ensures Looks(U32(before), now) <==> now - before > 1_000_000 || before >= 0x1_0000_0000
  {
    var k := before / 0x1_0000_0000;
    assert U32(before) == before - k * 0x1_0000_0000;
    assert U64(now - U32(before)) == now - U32(before);
  }

  /** What a call leaves: nothing new without a look; after a look the epoch of the wall clock, and
      if that is another one the old epoch and secret as previous ones, with a new secret. */
  lemma {:induction false} LookLeaves(k: Keys, last: uint32, now: uint64, wallSeconds: uint64, random: Secret)
    ensures var r := MaybeRotate(k, last, now, wallSeconds, random);
      && (!Looks(last, now) ==> r == k)
      && (Looks(last, now) ==>
            && r.epoch == U32(wallSeconds / 64)
            && (r.epoch == k.epoch ==> r == k)
            && (r.epoch != k.epoch ==> r.secret == random && r.prevEpoch == k.epoch && r.prevSecret == k.secret))
  {
    hide U32, Looks;
  }

  lemma {:induction false} LooksTwiceInAMicrosecond()
    ensures Looks(U32(0x1_0000_0000), 0x1_0000_0001)
  {
  }

  datatype Look = Look(last: uint32, now: uint64, wallSeconds: uint64, random: Secret)

  function LookAll(k: Keys, looks: seq<Look>): Keys {
    if looks == [] then k
    else
      var l := looks[|looks| - 1];
      MaybeRotate(LookAll(k, looks[..|looks| - 1]), l.last, l.now, l.wallSeconds, l.random)
  }

  /** The epochs that looks took over, one after the other, with their secrets. */
  function Turnovers(k: Keys, looks: seq<Look>): seq<(uint32, Secret)> {
    if looks == [] then []
    else
      var l := looks[|looks| - 1];
      var before := Turnovers(k, looks[..|looks| - 1]);
      var current := if before == [] then k.epoch else before[|before| - 1].0;
      if Looks(l.last, l.now) && U32(l.wallSeconds / 64) != current
      then before + [(U32(l.wallSeconds / 64), l.random)] else before
  }

  /** Each of them is one rotation, and there are no others. */
  lemma {:induction false} LooksRotate(k: Keys, looks: seq<Look>)
    ensures LookAll(k, looks) == RotateAll(k, Turnovers(k, looks))
    ensures var rs := Turnovers(k, looks);
      LookAll(k, looks).epoch == if rs == [] then k.epoch else rs[|rs| - 1].0
  {
    hide Looks, U32;
    if looks != [] {
      var l, n := looks[|looks| - 1], |looks| - 1;
      LooksRotate(k, looks[..n]);
      LookLeaves(LookAll(k, looks[..n]), l.last, l.now, l.wallSeconds, l.random);
      var before, rs := Turnovers(k, looks[..n]), Turnovers(k, looks);
      if rs != before { assert rs[..|rs| - 1] == before; }
    }
  }

  /** Once there has been a rotation the two epochs in use differ, whatever the wall clock does; and
      if it never shows the first 64 seconds of its era, the current one is not 0. */
  lemma {:induction false} EpochsDiffer(k: Keys, looks: seq<Look>)
    ensures LookAll(k, looks) == k || LookAll(k, looks).epoch != LookAll(k, looks).prevEpoch
    ensures (forall i :: 0 <= i < |looks| ==> U32(looks[i].wallSeconds / 64) != 0) ==>
      LookAll(k, looks) == k || LookAll(k, looks).epoch != 0
  {
    hide U32;
    if looks != [] { EpochsDiffer(k, looks[..|looks| - 1]); }
  }

  /** The secret ValidateCookie checks a cookie of this epoch against. */
  function SecretFor(k: Keys, epoch: uint32): Option<Secret> {
    if epoch == k.prevEpoch then Some(k.prevSecret)
    else if epoch == k.epoch then Some(k.secret)
    else None
  }

  predicate Accepts(k: Keys, md: Digest, epoch: uint32, c: Cookie, rate: uint32, a: Addr) {
    SecretFor(k, epoch).Some? && md(SecretFor(k, epoch).value, rate, a) == c
  }

  function Larger(x: uint32, y: uint32): uint32 { if x > y then x else y }

  /** The agreed period: no shorter than either asks, and one of the two. */
  predicate Agreed(rate: uint32, asked: uint32, least: uint32) {
    asked <= rate && least <= rate && (rate == asked || rate == least)
  }

  lemma AgreedIsLarger(rate: uint32, asked: uint32, least: uint32)
    ensures Agreed(rate, asked, least) <==> rate == Larger(asked, least)
  {
  }

  /** The reply to a client without a valid session: a cookie for the negotiated rate. */
  function Reply(k: Keys, md: Digest, minUsec: uint32, rx: Packet, a: Addr, now: uint64): Packet {
    var rate := Larger(rx.h.usecPerPkt, minUsec);
    Packet(Header(rx.h.id, U32(now), U32(U32(now) - rx.h.txtime), rate, 0, PacketType.Handshake, 0),
           WithCookie(ZeroPayload(), k.epoch, md(k.secret, rate, a)))
  }

  /** A session to be opened is scheduled 10 msec from now; an existing one is kept. */
  function FindOrOpen(sessions: map<Addr, Sess>, a: Addr, rate: uint32, now: uint64): Sess {
    if a in sessions then sessions[a] else NewSess(U64(now + 10_000), rate)
  }

  /** handle_new_client_handshake_packet. */
  function NewClientHandshake(srv: Server, md: Digest, minUsec: uint32, rx: Packet, a: Addr, now: uint64)
    : (Server, Option<Packet>)
  {
    if EpochOf(rx.data) == 0 then
      (srv.(sessions := srv.sessions - {a}), Some(Reply(srv.keys, md, minUsec, rx, a, now)))
    else if !Accepts(srv.keys, md, EpochOf(rx.data), CookieOf(rx.data), rx.h.usecPerPkt, a) then
      (srv, None)
    else
      var s := FindOrOpen(srv.sessions, a, rx.h.usecPerPkt, now);
      (srv.(sessions := srv.sessions[a := Accept(s, rx, now).0]), None)
  }

  /** read_incoming_packet and handle_packet on the server. */
  function ServerReceive(srv: Server, md: Digest, minUsec: uint32, rx: Packet, a: Addr, now: uint64)
    : (Server, Option<Packet>)
  {
    if rx.h.kind == PacketType.Handshake then NewClientHandshake(srv, md, minUsec, rx, a, now)
    else if a in srv.sessions then
      (srv.(sessions := srv.sessions[a := Receive(srv.sessions[a], rx, now).0]), None)
    else (srv, Some(Reply(srv.keys, md, minUsec, rx, a, now)))
  }

  /** What a reply tells its receiver: its own id, when it was sent, how far the server's clock is
      from the time stamped in what it answers, the agreed period, and a cookie of the current
      epoch for that period and address. */
  lemma {:induction false} ReplyMeaning(k: Keys, md: Digest, minUsec: uint32, rx: Packet, a: Addr, now: uint64)
    ensures var r := Reply(k, md, minUsec, rx, a, now);
      && r.h.kind == PacketType.Handshake && Agreed(r.h.usecPerPkt, rx.h.usecPerPkt, minUsec)
      && r.h.id == rx.h.id && Cong(r.h.txtime, now) && Cong(r.h.clockdiff, now - rx.h.txtime)
      && r.h.numLost == 0 && r.h.firstAck == 0
      && EpochOf(r.data) == k.epoch && CookieOf(r.data) == md(k.secret, r.h.usecPerPkt, a)
      && forall i :: i == 0 || 10 <= i < 128 ==> r.data[i] == 0
  {
    hide WithCookie, EpochOf, CookieOf, U32, Cong;
    var r := Reply(k, md, minUsec, rx, a, now);
    AgreedIsLarger(r.h.usecPerPkt, rx.h.usecPerPkt, minUsec);
    U32Cong(now);
    U32Cong(U32(now) - rx.h.txtime);
    var k0 := Quotient(U32(now), now);
    var k1 := Quotient(r.h.clockdiff, U32(now) - rx.h.txtime);
    MultipleCong(r.h.clockdiff, now - rx.h.txtime, k1 + k0);
    forall i | 10 <= i < 128
      ensures r.data[i] == 0
    {
      assert r.data[10..][i - 10] == ZeroPayload()[10..][i - 10];
    }
  }

  /** Who gets a reply: whoever greets without a cookie, and a stranger who sends an ack. Neither
      has a session afterwards, and nobody else is touched. */
  lemma {:induction false} ReplyIff(srv: Server, md: Digest, minUsec: uint32, rx: Packet, a: Addr, now: uint64)
    ensures var r := ServerReceive(srv, md, minUsec, rx, a, now);
      var greets := rx.h.kind == PacketType.Handshake && EpochOf(rx.data) == 0;
      var strange := rx.h.kind == PacketType.Ack && a !in srv.sessions;
      && (r.1.Some? <==> greets || strange)
      && (r.1.Some? ==> r == (srv.(sessions := srv.sessions - {a}), Some(Reply(srv.keys, md, minUsec, rx, a, now))))
      && (r.1 == None ==> r.0 == srv || (a in r.0.sessions && r.0 == srv.(sessions := srv.sessions[a := r.0.sessions[a]])))
  {
    hide Receive, Accept, Reply, EpochOf, CookieOf, Accepts, FindOrOpen;
    if a !in srv.sessions { assert srv.sessions - {a} == srv.sessions; }
  }

  // ---- what a packet does to the map, and what its sender could have known ----

  /** A handshake with a good cookie: opens a session or finds one. */
  predicate Presents(srv: Server, md: Digest, rx: Packet, a: Addr) {
    && rx.h.kind == PacketType.Handshake && EpochOf(rx.data) != 0
    && Accepts(srv.keys, md, EpochOf(rx.data), CookieOf(rx.data), rx.h.usecPerPkt, a)
  }

  /** A handshake from an address that has a session: begins anew, or repeats its cookie. */
  predicate Restarts(srv: Server, md: Digest, rx: Packet, a: Addr) {
    a in srv.sessions && rx.h.kind == PacketType.Handshake && (EpochOf(rx.data) == 0 || Presents(srv, md, rx, a))
  }

  /** A session that is opened is fit for the scheduler exactly if the rate on the wire is
      positive as a signed number. */
  lemma {:induction false} OpenedSaneIff(srv: Server, md: Digest, minUsec: uint32, rx: Packet, a: Addr, now: uint64)
    requires Presents(srv, md, rx, a) && a !in srv.sessions && now < TIME_LIMIT
    ensures var after := ServerReceive(srv, md, minUsec, rx, a, now).0.sessions;
      a in after && (Sane(after[a]) <==> 1 <= rx.h.usecPerPkt < 0x8000_0000)
  {
    hide Receive, EpochOf, CookieOf, Accepts;
    var s := NewSess(U64(now + 10_000), rx.h.usecPerPkt);
    ReceiveFrame(s.(state := Established), AsFirstAck(rx), now);
  }

  /** And a stranger does get one that is not: the server offers the larger of the two periods as
      unsigned numbers, and a period of 2^31 usec is negative as a signed one. */
  lemma {:induction false} OverlongPeriod(srv: Server, md: Digest, minUsec: uint32, hello: Packet, a: Addr, now: uint64, later: uint64)
    requires a !in srv.sessions && minUsec <= 0x8000_0000 && srv.keys.epoch != 0 && srv.keys.epoch != srv.keys.prevEpoch
    requires hello.h.kind == PacketType.Handshake && EpochOf(hello.data) == 0 && hello.h.usecPerPkt == 0x8000_0000
    requires later < TIME_LIMIT
    ensures var offer := ServerReceive(srv, md, minUsec, hello, a, now);
      && offer.1.Some?
      && var after := ServerReceive(offer.0, md, minUsec, offer.1.value, a, later).0.sessions;
         a in after && after[a].usecPerPkt == -0x8000_0000 && !Sane(after[a])
  {
    hide Receive, EpochOf, CookieOf, WithCookie;
    var offer := ServerReceive(srv, md, minUsec, hello, a, now);
    var s := NewSess(U64(later + 10_000), 0x8000_0000);
    ReceiveFrame(s.(state := Established), AsFirstAck(offer.1.value), later);
    assert Presents(offer.0, md, offer.1.value, a);
  }

  // ---- the window in which a cookie is good ----

  datatype Input = Input(secret: Secret, rate: uint32, addr: Addr)

  function Hash(md: Digest, i: Input): Cookie { md(i.secret, i.rate, i.addr) }

  /** An ideal digest, as far as these inputs go. */
  ghost predicate CollisionFree(md: Digest, inputs: set<Input>) {
    forall i, j :: i in inputs && j in inputs && Hash(md, i) == Hash(md, j) ==> i == j
  }

  function RotateAll(k: Keys, rs: seq<(uint32, Secret)>): Keys {
    if rs == [] then k
    else Rotate(RotateAll(k, rs[..|rs| - 1]), rs[|rs| - 1].0, rs[|rs| - 1].1)
  }

  /** After two rotations or more both secrets in use are new ones. */
  lemma SecretsAfter(k: Keys, rs: seq<(uint32, Secret)>)
    requires |rs| >= 2
    ensures RotateAll(k, rs).secret == rs[|rs| - 1].1 && RotateAll(k, rs).prevSecret == rs[|rs| - 2].1
  {
    assert rs[..|rs| - 1][|rs| - 2] == rs[|rs| - 2];
  }

  function SecretsOf(k: Keys, rs: seq<(uint32, Secret)>): set<Secret> {
    {k.secret, k.prevSecret} + set i | 0 <= i < |rs| :: rs[i].1
  }

  /** A cookie issued under the current secret, presented after any number of rotations, in
      any order of epochs: it is good for its own address and rate only, after one rotation,
      or before the first one unless the two epochs in use coincide; never later. */
  lemma {:induction false} CookieWindow(k: Keys, rs: seq<(uint32, Secret)>, md: Digest, inputs: set<Input>,
                     rate: uint32, a: Addr, rate2: uint32, a2: Addr)
    requires k.prevSecret != k.secret && forall i :: 0 <= i < |rs| ==> rs[i].1 != k.secret
    requires CollisionFree(md, inputs) && Input(k.secret, rate, a) in inputs
    requires forall s :: s in SecretsOf(k, rs) ==> Input(s, rate2, a2) in inputs
    ensures Accepts(RotateAll(k, rs), md, k.epoch, md(k.secret, rate, a), rate2, a2)
      <==> (rate2 == rate && a2 == a && (|rs| == 1 || (|rs| == 0 && k.epoch != k.prevEpoch)))
  {
    var now := RotateAll(k, rs);
    var chosen := SecretFor(now, k.epoch);
    if |rs| >= 2 {
      SecretsAfter(k, rs);
    } else if |rs| == 1 {
      assert RotateAll(k, rs[..0]) == k;
    }
    if chosen.Some? {
      assert chosen.value in SecretsOf(k, rs);
      assert Hash(md, Input(chosen.value, rate2, a2)) == md(chosen.value, rate2, a2);
      assert Hash(md, Input(k.secret, rate, a)) == md(k.secret, rate, a);
    }
  }

  /** The same by the wall clock: a cookie outlives one change of epoch that a look takes over, and
      is refused at the second. */
  lemma {:induction false} CookieUnderLooks(k: Keys, looks: seq<Look>, md: Digest, inputs: set<Input>,
                                            rate: uint32, a: Addr, rate2: uint32, a2: Addr)
    requires var rs := Turnovers(k, looks);
      && k.prevSecret != k.secret && (forall i :: 0 <= i < |rs| ==> rs[i].1 != k.secret)
      && CollisionFree(md, inputs) && Input(k.secret, rate, a) in inputs
      && forall s :: s in SecretsOf(k, rs) ==> Input(s, rate2, a2) in inputs
    ensures var changes := |Turnovers(k, looks)|;
      Accepts(LookAll(k, looks), md, k.epoch, md(k.secret, rate, a), rate2, a2)
      <==> (rate2 == rate && a2 == a && (changes == 1 || (changes == 0 && k.epoch != k.prevEpoch)))
  {
    hide Turnovers, LookAll, Accepts, CollisionFree;
    LooksRotate(k, looks);
    CookieWindow(k, Turnovers(k, looks), md, inputs, rate, a, rate2, a2);
  }

  // ---- the whole exchange: greeting, offer, echo ----

  /** A client's next packet once it has adopted an offer. */
  function EchoOf(s: Sess, offer: Packet, now: uint64): Packet { Wired(PrepareTx(AdoptCookie(s, offer, now))) }

  /** It carries the cookie back, at the rate offered. */
  lemma EchoFaithful(s: Sess, offer: Packet, now: uint64)
    ensures var e := EchoOf(s, offer, now);
      && e.h.kind == PacketType.Handshake && e.h.usecPerPkt == offer.h.usecPerPkt
      && EpochOf(e.data) == EpochOf(offer.data) && CookieOf(e.data) == CookieOf(offer.data)
  {
    hide U32, S32, WithCookie, EpochOf, CookieOf;
    SameWord(offer.h.usecPerPkt);
  }

  lemma SameWord(x: uint32)
    ensures U32(S32(x)) == x
  {
  }

  /** The server offers a cookie, to a greeting or to an ack from a stranger; secrets may rotate; the
      client echoes the offer. That opens a session exactly if the offer was made in an epoch
      other than 0, the mark for "no cookie", and either one rotation lies between, or none
      and the two epochs in use differed. */
  lemma {:induction false} OfferOpensIff(srv: Server, md: Digest, minUsec: uint32, hello: Packet, a: Addr, now: uint64,
                                         rs: seq<(uint32, Secret)>, s: Sess, t: uint64, later: uint64,
                                         rate: uint32, inputs: set<Input>)
    requires Agreed(rate, hello.h.usecPerPkt, minUsec)
    requires ServerReceive(srv, md, minUsec, hello, a, now).1.Some?
    requires srv.keys.prevSecret != srv.keys.secret && forall i :: 0 <= i < |rs| ==> rs[i].1 != srv.keys.secret
    requires CollisionFree(md, inputs)
    requires forall x :: x in SecretsOf(srv.keys, rs) ==> Input(x, rate, a) in inputs
    ensures var offered := ServerReceive(srv, md, minUsec, hello, a, now);
      var rotated := offered.0.(keys := RotateAll(srv.keys, rs));
      (a in ServerReceive(rotated, md, minUsec, EchoOf(s, offered.1.value, t), a, later).0.sessions)
      <==> srv.keys.epoch != 0 && (|rs| == 1 || (|rs| == 0 && srv.keys.epoch != srv.keys.prevEpoch))
  {
    hide Receive, Accept, EpochOf, CookieOf, WithCookie, RotateAll, Accepts, U32, CollisionFree, EchoOf, FindOrOpen;
    var offered := ServerReceive(srv, md, minUsec, hello, a, now);
    var offer := offered.1.value;
    OfferMade(srv, md, minUsec, hello, a, now);
    AgreedIsLarger(rate, hello.h.usecPerPkt, minUsec);
    AgreedIsLarger(offer.h.usecPerPkt, hello.h.usecPerPkt, minUsec);
    EchoFaithful(s, offer, t);
    CookieWindow(srv.keys, rs, md, inputs, offer.h.usecPerPkt, a, offer.h.usecPerPkt, a);
  }

  lemma OfferMade(srv: Server, md: Digest, minUsec: uint32, hello: Packet, a: Addr, now: uint64)
    requires ServerReceive(srv, md, minUsec, hello, a, now).1.Some?
    ensures var r := ServerReceive(srv, md, minUsec, hello, a, now);
      var offer := r.1.value;
      && a !in r.0.sessions && r.0.keys == srv.keys
      && Agreed(offer.h.usecPerPkt, hello.h.usecPerPkt, minUsec) && offer.h.kind == PacketType.Handshake
      && EpochOf(offer.data) == srv.keys.epoch && CookieOf(offer.data) == md(srv.keys.secret, offer.h.usecPerPkt, a)
  {
    hide ServerReceive, EpochOf, CookieOf, Cong, Reply;
    ReplyIff(srv, md, minUsec, hello, a, now);
    ReplyMeaning(srv.keys, md, minUsec, hello, a, now);
  }

  /** An instance: in epoch 0, as before the first look at the wall clock, a client that echoes its
      cookie is only ever offered another one, although the epochs in use differ. */
  lemma {:induction false} EpochZeroNeverOpens(s: Sess, hello: Packet, a: Addr, now: uint64, t: uint64, later: uint64)
    requires hello.h.kind == PacketType.Handshake && EpochOf(hello.data) == 0
    ensures var srv := Server(Keys(0, [1, 0, 0, 0], 5, [2, 0, 0, 0]), map[]);
      var offered := ServerReceive(srv, FirstWordDigest, 1000, hello, a, now);
      && offered.1.Some?
      && var r := ServerReceive(offered.0, FirstWordDigest, 1000, EchoOf(s, offered.1.value, t), a, later);
         r.0.sessions == map[] && r.1.Some?
  {
    hide EpochOf, CookieOf, WithCookie, U32, EchoOf;
    var srv := Server(Keys(0, [1, 0, 0, 0], 5, [2, 0, 0, 0]), map[]);
    OfferMade(srv, FirstWordDigest, 1000, hello, a, now);
    EchoFaithful(s, ServerReceive(srv, FirstWordDigest, 1000, hello, a, now).1.value, t);
  }

  function FirstWordDigest(s: Secret, rate: uint32, a: Addr): Cookie { seq(8, _ => s[0]) }

  // ---- how soon a client repeats its cookie ----

  /** The session an echo opens is first due 10 msec after it arrives; the client, meanwhile, is due
      one period after its echo, and unless an ack has come by then its packet is the same
      cookie again, which restarts the session it was given. */
  lemma {:induction false} CookieRepeated(srv: Server, md: Digest, minUsec: uint32, s: Sess, offer: Packet, a: Addr,
                                          t: uint64, arrived: uint64)
    requires offer.h.kind == PacketType.Handshake && offer.h.usecPerPkt < 0x8000_0000
    requires a !in srv.sessions && Presents(srv, md, EchoOf(s, offer, t), a)
    requires t < TIME_LIMIT && arrived < TIME_LIMIT
    ensures var echoed := SendTx(PrepareTx(AdoptCookie(s, offer, t)), false);
      var after := ServerReceive(srv, md, minUsec, EchoOf(s, offer, t), a, arrived).0;
      && echoed.nextSend == t + offer.h.usecPerPkt
      && a in after.sessions && after.sessions[a].nextSend == arrived + 10_000
      && Restarts(after, md, Wired(PrepareTx(echoed)), a)
  {
    hide Receive, EpochOf, CookieOf, WithCookie, U32, Accepts;
    var c := AdoptCookie(s, offer, t);
    var e := EchoOf(s, offer, t);
    var first := NewSess(U64(arrived + 10_000), e.h.usecPerPkt);
    ReceiveFrame(first.(state := Established), AsFirstAck(e), arrived);
    Unwrapped(arrived + 10_000);
    Unwrapped(t + offer.h.usecPerPkt);
    assert S32(offer.h.usecPerPkt) == offer.h.usecPerPkt;
    assert Wired(PrepareTx(SendTx(PrepareTx(c), false))).data == e.data;
  }
}
