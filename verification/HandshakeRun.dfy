/** One honest client, one server, any number of other senders, and a network that loses,
    duplicates and reorders: what the handshake guarantees over every run. */
module HandshakeRun {
  import opened Words
  import opened Wire
  import opened Engine
  import opened Scheduler
  import opened Handshake

  /** What the server did: replied with a cookie for (rate, addr) under a secret, or opened a
      session on a cookie that checked out for (rate, addr) under a secret. */
  datatype Fact =
    | Issued(addr: Addr, rate: uint32, epoch: uint32, secret: Secret)
    | Accepted(addr: Addr, rate: uint32, epoch: uint32, secret: Secret)

  datatype World = World(
    client: Sess,
    me: Addr,                          // the client's address
    server: Server,
    up: set<Packet>,                   // all the client ever sent
    down: set<Packet>,                 // all the server ever sent to the client
    facts: seq<Fact>,                  // the server's deeds, in order
    hashed: set<Input>,                // everything the server ever hashed
    lastCookie: Option<(uint32, Cookie)>,   // the last cookie the client received
    clientLog: seq<AckSlot>,           // receipts the client filed since it last cleared its ring
    serverLogs: map<Addr, seq<AckSlot>>,    // receipts filed for each session since it was opened
    said: seq<Said>)                   // all that sessions ever sent, on either side

  /** A packet a session sent, the last cookie it had received then, and the receipts it had filed
      since it last cleared its ring. */
  datatype Said = Said(fromServer: bool, p: Packet, cookie: Option<(uint32, Cookie)>, log: seq<AckSlot>)

  datatype Event =
    | ClientSends
    | ClientGets(p: Packet, now: uint64)
    | ServerSends(a: Addr)
    | ServerGets(a: Addr, p: Packet, now: uint64)
    | ServerEvicts(a: Addr)
    | Rotates(epoch: uint32, secret: Secret)

  /** The digest and the server's shortest period, fixed for the run. */
  datatype Setting = Setting(md: Digest, minUsec: uint32)

  // ---- steps ----

  predicate EchoesCookie(p: Packet) { p.h.kind == PacketType.Handshake && EpochOf(p.data) != 0 }

  predicate Opens(c: Setting, srv: Server, p: Packet, a: Addr) {
    EchoesCookie(p) && Accepts(srv.keys, c.md, EpochOf(p.data), CookieOf(p.data), p.h.usecPerPkt, a)
  }

  /** Nobody presents a valid cookie without having it from some reply of the server's. */
  ghost predicate NotGuessed(c: Setting, w: World, p: Packet, a: Addr) {
    Opens(c, w.server, p, a) ==>
      exists f :: f in w.facts && f.Issued? && c.md(f.secret, f.rate, f.addr) == CookieOf(p.data)
  }

  ghost predicate Enabled(c: Setting, w: World, e: Event) {
    match e
    case ClientSends => true
    case ClientGets(p, _) => p in w.down
    case ServerSends(a) => a in w.server.sessions
    case ServerGets(a, p, _) => if a == w.me then p in w.up else NotGuessed(c, w, p, a)
    case ServerEvicts(a) => a in w.server.sessions
    case Rotates(_, _) => true
  }

  /** What the server puts on record when it handles a packet. */
  function NewFacts(c: Setting, srv: Server, p: Packet, a: Addr, reply: Option<Packet>): seq<Fact> {
    if reply.Some? then [Issued(a, reply.value.h.usecPerPkt, srv.keys.epoch, srv.keys.secret)]
    else if Opens(c, srv, p, a) then
      [Accepted(a, p.h.usecPerPkt, EpochOf(p.data), SecretFor(srv.keys, EpochOf(p.data)).value)]
    else []
  }

  function NewInputs(srv: Server, p: Packet, a: Addr, reply: Option<Packet>): set<Input> {
    if reply.Some? then {Input(srv.keys.secret, reply.value.h.usecPerPkt, a)}
    else if EchoesCookie(p) && SecretFor(srv.keys, EpochOf(p.data)).Some? then
      {Input(SecretFor(srv.keys, EpochOf(p.data)).value, p.h.usecPerPkt, a)}
    else {}
  }

  function NewServerLogs(logs: map<Addr, seq<AckSlot>>, after: map<Addr, Sess>, a: Addr, receipt: AckSlot, filed: bool)
    : map<Addr, seq<AckSlot>>
  {
    if a !in after then logs - {a}
    else if !filed then logs
    else logs[a := (if a in logs then logs[a] else []) + [receipt]]
  }

  /** A packet is filed if it opens a session or acks in one. */
  predicate Files(c: Setting, srv: Server, p: Packet, a: Addr) {
    Opens(c, srv, p, a) || (p.h.kind == PacketType.Ack && a in srv.sessions)
  }

  function ServerSent(srv: Server, a: Addr): (Server, Packet)
    requires a in srv.sessions
  {
    var s := PrepareTx(srv.sessions[a]);
    (srv.(sessions := srv.sessions[a := SendTx(s, true)]), Wired(s))
  }

  function ToMe(w: World, a: Addr, p: Packet): set<Packet> { if a == w.me then {p} else {} }

  function Step(c: Setting, w: World, e: Event): World
    requires e.ServerSends? ==> e.a in w.server.sessions
  {
    match e
    case ClientSends =>
      var s := PrepareTx(w.client);
      w.(client := SendTx(s, false), up := w.up + {Wired(s)},
         said := w.said + [Said(false, Wired(s), w.lastCookie, w.clientLog)])
    case ClientGets(p, now) =>
      w.(client := ClientReceive(w.client, p, now),
         lastCookie := if p.h.kind == PacketType.Handshake then Some((EpochOf(p.data), CookieOf(p.data))) else w.lastCookie,
         clientLog := if p.h.kind == PacketType.Handshake then w.clientLog
                      else (if w.client.state == CookieGenerated then [] else w.clientLog)
                           + [AckSlot(p.h.id, U32(now))])
    case ServerSends(a) =>
      var r := ServerSent(w.server, a);
      w.(server := r.0, down := w.down + ToMe(w, a, r.1),
         said := w.said + [Said(true, r.1, None, if a in w.serverLogs then w.serverLogs[a] else [])])
    case ServerGets(a, p, now) =>
      var r := ServerReceive(w.server, c.md, c.minUsec, p, a, now);
      w.(server := r.0,
         down := w.down + if r.1.Some? then ToMe(w, a, r.1.value) else {},
         facts := w.facts + NewFacts(c, w.server, p, a, r.1),
         hashed := w.hashed + NewInputs(w.server, p, a, r.1),
         serverLogs := NewServerLogs(w.serverLogs, r.0.sessions, a, AckSlot(p.h.id, U32(now)), Files(c, w.server, p, a)))
    case ServerEvicts(a) =>
      w.(server := w.server.(sessions := w.server.sessions - {a}), serverLogs := w.serverLogs - {a})
    case Rotates(epoch, secret) =>
      w.(server := w.server.(keys := Rotate(w.server.keys, epoch, secret)))
  }

  ghost predicate Fresh(w: World, request: uint32) {
    && (exists first: uint64 :: w.client == NewSess(first, request))
    && w.server.sessions == map[] && w.up == {} && w.down == {} && w.facts == [] && w.hashed == {}
    && w.lastCookie == None && w.clientLog == [] && w.serverLogs == map[] && w.said == []
  }

  ghost predicate ValidRun(c: Setting, w0: World, es: seq<Event>)
    decreases |es|, 0
  {
    es == [] ||
    var k := |es| - 1;
    ValidRun(c, w0, es[..k]) && Enabled(c, Run(c, w0, es[..k]), es[k])
  }

  ghost function Run(c: Setting, w0: World, es: seq<Event>): World
    requires ValidRun(c, w0, es)
    decreases |es|, 1
  {
    if es == [] then w0 else Step(c, Run(c, w0, es[..|es| - 1]), es[|es| - 1])
  }

  // ---- the invariant ----

  /** A cookie of this epoch for the client at this rate, by the server's own hand. */
  ghost predicate IssuedToMe(c: Setting, w: World, rate: uint32, epoch: uint32, k: Cookie) {
    exists s: Secret :: Issued(w.me, rate, epoch, s) in w.facts && c.md(s, rate, w.me) == k
  }

  ghost predicate AcceptedOnce(facts: seq<Fact>, a: Addr) {
    exists f :: f in facts && f.Accepted? && f.addr == a
  }

  predicate PastRequest(s: Sess) { s.state == CookieGenerated || s.state == Established }

  /** The client's transmit buffer holds either a handshake or acks, never a mixture. */
  ghost predicate ClientInv(c: Setting, w: World, request: uint32, rate: uint32) {
    && (!PastRequest(w.client) ==>
          w.client.usecPerPkt == request && w.client.txData == ZeroPayload() && w.lastCookie == None)
    && (PastRequest(w.client) ==> w.client.usecPerPkt == rate && w.lastCookie.Some?)
    && (w.client.state == CookieGenerated ==>
          w.lastCookie == Some((EpochOf(w.client.txData), CookieOf(w.client.txData))))
    && (w.client.state == Established ==>
          && AcceptedOnce(w.facts, w.me)
          && RingRead(w.client.txData, w.client.nextTxackIndex) == LastReceipts(w.clientLog))
    && (w.lastCookie.Some? ==> IssuedToMe(c, w, rate, w.lastCookie.value.0, w.lastCookie.value.1))
  }

  ghost predicate UpInv(c: Setting, w: World, request: uint32, rate: uint32, p: Packet) {
    && (p.h.usecPerPkt == request || p.h.usecPerPkt == rate)
    && (p.h.kind == PacketType.Ack ==> p.h.usecPerPkt == rate && PastRequest(w.client))
    && (EchoesCookie(p) ==>
          && p.h.usecPerPkt == rate && PastRequest(w.client)
          && IssuedToMe(c, w, rate, EpochOf(p.data), CookieOf(p.data)))
  }

  ghost predicate DownInv(c: Setting, w: World, rate: uint32, p: Packet) {
    && p.h.usecPerPkt == rate
    && (p.h.kind == PacketType.Ack ==> AcceptedOnce(w.facts, w.me))
    && (p.h.kind == PacketType.Handshake ==> IssuedToMe(c, w, rate, EpochOf(p.data), CookieOf(p.data)))
  }

  ghost predicate SessionInv(w: World, rate: uint32, a: Addr, s: Sess) {
    && s.state == Established
    && AcceptedOnce(w.facts, a)
    && (a == w.me ==> s.usecPerPkt == rate)
    && a in w.serverLogs && RingRead(s.txData, s.nextTxackIndex) == LastReceipts(w.serverLogs[a])
  }

  function InputOf(f: Fact): Input { Input(f.secret, f.rate, f.addr) }

  /** Every acceptance comes after an issue of the same cookie to the same address. */
  ghost predicate Answered(facts: seq<Fact>) {
    forall j :: 0 <= j < |facts| && facts[j].Accepted? ==> AnsweredAt(facts, j)
  }

  ghost predicate AnsweredAt(facts: seq<Fact>, j: nat)
    requires j < |facts|
  {
    exists i :: 0 <= i < j && facts[i].Issued? && InputOf(facts[i]) == InputOf(facts[j])
  }

  ghost predicate Inv(c: Setting, w: World, request: uint32, rate: uint32) {
    && ClientInv(c, w, request, rate)
    && (forall p :: p in w.up ==> UpInv(c, w, request, rate, p))
    && (forall p :: p in w.down ==> DownInv(c, w, rate, p))
    && (forall a :: a in w.server.sessions ==> SessionInv(w, rate, a, w.server.sessions[a]))
    && (forall a :: a in w.serverLogs ==> a in w.server.sessions)
    && (forall f :: f in w.facts && f.Accepted? && f.addr == w.me ==> PastRequest(w.client))
    && (forall f :: f in w.facts ==> InputOf(f) in w.hashed)
    && (CollisionFree(c.md, w.hashed) ==> Answered(w.facts))
  }

  // ---- kept by every event ----

  /** What only ever grows. */
  ghost predicate Later(w: World, w2: World) {
    && w2.me == w.me
    && (forall f :: f in w.facts ==> f in w2.facts)
    && (PastRequest(w.client) ==> PastRequest(w2.client))
  }

  lemma UpLater(c: Setting, w: World, w2: World, request: uint32, rate: uint32, p: Packet)
    requires Later(w, w2) && UpInv(c, w, request, rate, p)
    ensures UpInv(c, w2, request, rate, p)
  {
  }

  lemma DownLater(c: Setting, w: World, w2: World, rate: uint32, p: Packet)
    requires Later(w, w2) && DownInv(c, w, rate, p)
    ensures DownInv(c, w2, rate, p)
  {
  }

  lemma SessionLater(w: World, w2: World, rate: uint32, a: Addr, s: Sess)
    requires Later(w, w2) && SessionInv(w, rate, a, s)
    requires a in w2.serverLogs && w2.serverLogs[a] == w.serverLogs[a]
    ensures SessionInv(w2, rate, a, s)
  {
    hide RingRead, LastReceipts;
  }

  lemma ClientLater(c: Setting, w: World, w2: World, request: uint32, rate: uint32)
    requires Later(w, w2) && ClientInv(c, w, request, rate)
    requires w2.client == w.client && w2.lastCookie == w.lastCookie && w2.clientLog == w.clientLog
    ensures ClientInv(c, w2, request, rate)
  {
    hide RingRead, LastReceipts;
  }

  ghost predicate Rates(c: Setting, request: uint32, rate: uint32) {
    0 < request < 0x8000_0000 && 0 < c.minUsec < 0x8000_0000 && Agreed(rate, request, c.minUsec)
  }

  lemma FreshInv(c: Setting, w: World, request: uint32, rate: uint32)
    requires Fresh(w, request) && Rates(c, request, rate)
    ensures Inv(c, w, request, rate)
  {
  }

  /** What is not touched by an event stays as it should be. */
  lemma RestLater(c: Setting, w: World, w2: World, request: uint32, rate: uint32)
    requires Inv(c, w, request, rate) && Later(w, w2)
    ensures forall p :: p in w.up ==> UpInv(c, w2, request, rate, p)
    ensures forall p :: p in w.down ==> DownInv(c, w2, rate, p)
    ensures forall a :: a in w.server.sessions ==> a in w.serverLogs
    ensures forall a :: a in w.server.sessions && a in w2.serverLogs && w2.serverLogs[a] == w.serverLogs[a] ==>
      SessionInv(w2, rate, a, w.server.sessions[a])
  {
    hide ClientInv, Answered, CollisionFree, UpInv, DownInv, RingRead, LastReceipts;
    forall p | p in w.up
      ensures UpInv(c, w2, request, rate, p)
    {
      UpLater(c, w, w2, request, rate, p);
    }
    forall p | p in w.down
      ensures DownInv(c, w2, rate, p)
    {
      DownLater(c, w, w2, rate, p);
    }
    forall a | a in w.server.sessions && a in w2.serverLogs && w2.serverLogs[a] == w.serverLogs[a]
      ensures SessionInv(w2, rate, a, w.server.sessions[a])
    {
      SessionLater(w, w2, rate, a, w.server.sessions[a]);
    }
  }

  lemma ClientSendsKeeps(c: Setting, w: World, request: uint32, rate: uint32)
    requires Inv(c, w, request, rate) && Rates(c, request, rate)
    ensures Inv(c, Step(c, w, ClientSends), request, rate)
  {
    hide RingRead, LastReceipts, U64, Answered, CollisionFree, SessionInv, DownInv;
    RestLater(c, w, Step(c, w, ClientSends), request, rate);
  }

  /** A session that files one receipt keeps an honest ring, its rate and its state. */
  lemma FilesHonestly(s: Sess, p: Packet, now: uint64, log: seq<AckSlot>)
    requires RingRead(s.txData, s.nextTxackIndex) == LastReceipts(log)
    ensures var t := Receive(s, p, now).0;
      && RingRead(t.txData, t.nextTxackIndex) == LastReceipts(log + [AckSlot(p.h.id, U32(now))])
      && t.state == s.state && t.usecPerPkt == s.usecPerPkt
  {
    hide Receive, RingRead, LastReceipts, WithSlot, U32;
    ReceiveFrame(s, p, now);
    WriteRing(s.txData, s.nextTxackIndex, log, AckSlot(p.h.id, U32(now)));
  }

  lemma ClientGetsKeeps(c: Setting, w: World, p: Packet, now: uint64, request: uint32, rate: uint32)
    requires Inv(c, w, request, rate) && Rates(c, request, rate) && p in w.down
    ensures Inv(c, Step(c, w, ClientGets(p, now)), request, rate)
  {
    hide RingRead, LastReceipts, Receive, Answered, CollisionFree, SessionInv, U32, EpochOf, CookieOf, WithCookie;
    var w2 := Step(c, w, ClientGets(p, now));
    assert DownInv(c, w, rate, p);
    if p.h.kind == PacketType.Handshake {
      assert S32(rate) == rate;
      var d := w.client.txData;
      assert EpochOf(WithCookie(d, EpochOf(p.data), CookieOf(p.data))) == EpochOf(p.data);
    } else {
      assert PastRequest(w.client);
      ClearedRing(w.client.nextTxackIndex);
      FilesHonestly(Establish(w.client), p, now, if w.client.state == CookieGenerated then [] else w.clientLog);
    }
    RestLater(c, w, w2, request, rate);
  }

  lemma ServerSendsKeeps(c: Setting, w: World, a: Addr, request: uint32, rate: uint32)
    requires Inv(c, w, request, rate) && Rates(c, request, rate) && a in w.server.sessions
    ensures Inv(c, Step(c, w, ServerSends(a)), request, rate)
  {
    hide RingRead, LastReceipts, Answered, CollisionFree, UpInv, U64, ClientInv;
    var w2 := Step(c, w, ServerSends(a));
    assert SessionInv(w, rate, a, w.server.sessions[a]);
    RestLater(c, w, w2, request, rate);
    ClientLater(c, w, w2, request, rate);
    forall b | b in w2.server.sessions
      ensures SessionInv(w2, rate, b, w2.server.sessions[b])
    {
      assert SessionInv(w2, rate, b, w.server.sessions[b]);
    }
  }

  lemma ServerEvictsKeeps(c: Setting, w: World, a: Addr, request: uint32, rate: uint32)
    requires Inv(c, w, request, rate)
    ensures Inv(c, Step(c, w, ServerEvicts(a)), request, rate)
  {
    hide RingRead, LastReceipts, Answered, CollisionFree, UpInv, DownInv, ClientInv;
    var w2 := Step(c, w, ServerEvicts(a));
    RestLater(c, w, w2, request, rate);
    ClientLater(c, w, w2, request, rate);
  }

  lemma RotatesKeeps(c: Setting, w: World, epoch: uint32, secret: Secret, request: uint32, rate: uint32)
    requires Inv(c, w, request, rate)
    ensures Inv(c, Step(c, w, Rotates(epoch, secret)), request, rate)
  {
    hide RingRead, LastReceipts, Answered, CollisionFree, UpInv, DownInv, ClientInv;
    var w2 := Step(c, w, Rotates(epoch, secret));
    RestLater(c, w, w2, request, rate);
    ClientLater(c, w, w2, request, rate);
  }

  // ---- the server handles a packet ----

  /** An acceptance recorded now is answered by an earlier issue. */
  lemma {:induction false} NewAcceptanceAnswered(c: Setting, w: World, p: Packet, a: Addr)
    requires Opens(c, w.server, p, a)
    requires exists f :: f in w.facts && f.Issued? && c.md(f.secret, f.rate, f.addr) == CookieOf(p.data)
    requires forall f :: f in w.facts ==> InputOf(f) in w.hashed
    requires CollisionFree(c.md, w.hashed) ==> Answered(w.facts)
    ensures CollisionFree(c.md, w.hashed + NewInputs(w.server, p, a, None)) ==>
      Answered(w.facts + NewFacts(c, w.server, p, a, None))
  {
    var inputs := w.hashed + NewInputs(w.server, p, a, None);
    var after := w.facts + NewFacts(c, w.server, p, a, None);
    if CollisionFree(c.md, inputs) {
      var f :| f in w.facts && f.Issued? && c.md(f.secret, f.rate, f.addr) == CookieOf(p.data);
      var i :| 0 <= i < |w.facts| && w.facts[i] == f;
      var j := |w.facts|;
      assert Hash(c.md, InputOf(f)) == Hash(c.md, InputOf(after[j]));
      assert InputOf(f) == InputOf(after[j]);
      assert after[i] == f && AnsweredAt(after, j);
      StillAnswered(w.facts, after);
    }
  }

  lemma StillAnswered(facts: seq<Fact>, after: seq<Fact>)
    requires Answered(facts) && |facts| <= |after| && after[..|facts|] == facts
    requires forall j :: |facts| <= j < |after| && after[j].Accepted? ==> AnsweredAt(after, j)
    ensures Answered(after)
  {
    forall j | 0 <= j < |after| && after[j].Accepted?
      ensures AnsweredAt(after, j)
    {
      if j < |facts| {
        assert facts[j] == after[j] && AnsweredAt(facts, j);
        var i :| 0 <= i < j && facts[i].Issued? && InputOf(facts[i]) == InputOf(facts[j]);
        assert after[i] == facts[i];
      }
    }
  }

  lemma FactsKeep(c: Setting, w: World, p: Packet, a: Addr, now: uint64, request: uint32, rate: uint32)
    requires Inv(c, w, request, rate) && Enabled(c, w, ServerGets(a, p, now))
    ensures var w2 := Step(c, w, ServerGets(a, p, now));
      && Later(w, w2)
      && (forall f :: f in w2.facts && f.Accepted? && f.addr == w2.me ==> PastRequest(w2.client))
      && (forall f :: f in w2.facts ==> InputOf(f) in w2.hashed)
      && (CollisionFree(c.md, w2.hashed) ==> Answered(w2.facts))
  {
    hide Accept, Receive, RingRead, LastReceipts, ClientInv, DownInv, SessionInv, Reply, WithCookie;
    var w2 := Step(c, w, ServerGets(a, p, now));
    var reply := ServerReceive(w.server, c.md, c.minUsec, p, a, now).1;
    if a == w.me { assert UpInv(c, w, request, rate, p); }
    if CollisionFree(c.md, w2.hashed) {
      assert CollisionFree(c.md, w.hashed);
      if reply == None && Opens(c, w.server, p, a) {
        if a == w.me {
          assert IssuedToMe(c, w, rate, EpochOf(p.data), CookieOf(p.data));
        }
        NewAcceptanceAnswered(c, w, p, a);
      } else {
        StillAnswered(w.facts, w2.facts);
      }
    }
  }

  /** The server answers with a cookie: to the client always at the negotiated rate. */
  lemma ReplyKeeps(c: Setting, w: World, p: Packet, a: Addr, now: uint64, request: uint32, rate: uint32)
    requires Inv(c, w, request, rate) && Rates(c, request, rate) && Enabled(c, w, ServerGets(a, p, now))
    requires ServerReceive(w.server, c.md, c.minUsec, p, a, now).1.Some?
    ensures Inv(c, Step(c, w, ServerGets(a, p, now)), request, rate)
  {
    hide Accept, Receive, RingRead, LastReceipts, Answered, CollisionFree, EpochOf, CookieOf, U32, Reply, Accepts,
      ClientInv, SessionInv, NotGuessed, FindOrOpen;
    var w2 := Step(c, w, ServerGets(a, p, now));
    var r := ServerReceive(w.server, c.md, c.minUsec, p, a, now).1.value;
    FactsKeep(c, w, p, a, now, request, rate);
    RestLater(c, w, w2, request, rate);
    ClientLater(c, w, w2, request, rate);
    ReplyMeaning(w.server.keys, c.md, c.minUsec, p, a, now);
    ReplyIff(w.server, c.md, c.minUsec, p, a, now);
    if a == w.me {
      assert UpInv(c, w, request, rate, p);
      ReplyToMe(c, w, w2, r, rate);
    }
  }

  lemma ReplyToMe(c: Setting, w: World, w2: World, r: Packet, rate: uint32)
    requires r.h.usecPerPkt == rate && r.h.kind == PacketType.Handshake && w2.me == w.me
    requires EpochOf(r.data) == w.server.keys.epoch && CookieOf(r.data) == c.md(w.server.keys.secret, rate, w.me)
    requires w2.facts == w.facts + [Issued(w.me, rate, w.server.keys.epoch, w.server.keys.secret)]
    ensures DownInv(c, w2, rate, r)
  {
    hide EpochOf, CookieOf;
    assert w2.facts[|w.facts|] == Issued(w.me, rate, w.server.keys.epoch, w.server.keys.secret);
  }

  /** A session as it is when the server files a packet in it. */
  ghost predicate Fit(s: Sess, log: seq<AckSlot>, mine: bool, rate: uint32) {
    && s.state == Established && (mine ==> s.usecPerPkt == rate)
    && RingRead(s.txData, s.nextTxackIndex) == LastReceipts(log)
  }

  lemma FitFiles(s: Sess, p: Packet, now: uint64, log: seq<AckSlot>, mine: bool, rate: uint32)
    requires Fit(s, log, mine, rate)
    ensures Fit(Receive(s, p, now).0, log + [AckSlot(p.h.id, U32(now))], mine, rate)
  {
    hide Receive, RingRead, LastReceipts, U32;
    FilesHonestly(s, p, now, log);
  }

  lemma FitOpens(sessions: map<Addr, Sess>, p: Packet, a: Addr, now: uint64, log: seq<AckSlot>, mine: bool, rate: uint32)
    requires if a in sessions then Fit(sessions[a], log, mine, rate) else log == []
    requires mine ==> p.h.usecPerPkt == rate && 0 < rate < 0x8000_0000
    ensures Fit(Accept(FindOrOpen(sessions, a, p.h.usecPerPkt, now), p, now).0, log + [AckSlot(p.h.id, U32(now))], mine, rate)
  {
    hide Receive, RingRead, LastReceipts, U32, U64, S32;
    ClearedRing(0);
    if mine { Positive32(rate); }
    FitFiles(FindOrOpen(sessions, a, p.h.usecPerPkt, now).(state := Established), AsFirstAck(p), now, log, mine, rate);
  }

  lemma FiledSession(c: Setting, w: World, p: Packet, a: Addr, now: uint64, request: uint32, rate: uint32)
    requires Inv(c, w, request, rate) && Rates(c, request, rate) && Enabled(c, w, ServerGets(a, p, now))
    requires ServerReceive(w.server, c.md, c.minUsec, p, a, now).1 == None && Files(c, w.server, p, a)
    ensures var w2 := Step(c, w, ServerGets(a, p, now));
      var log := if a in w.serverLogs then w.serverLogs[a] else [];
      && a in w2.server.sessions && w2.server.sessions == w.server.sessions[a := w2.server.sessions[a]]
      && w2.serverLogs == w.serverLogs[a := log + [AckSlot(p.h.id, U32(now))]]
      && Fit(w2.server.sessions[a], w2.serverLogs[a], a == w.me, rate)
  {
    hide Receive, Accept, FindOrOpen, RingRead, LastReceipts, Answered, CollisionFree, U32, U64, Accepts, ClientInv,
      DownInv, NotGuessed, Reply;
    var log := if a in w.serverLogs then w.serverLogs[a] else [];
    assert a in w.server.sessions ==> SessionInv(w, rate, a, w.server.sessions[a]);
    assert a == w.me ==> UpInv(c, w, request, rate, p);
    if p.h.kind == PacketType.Handshake {
      FitOpens(w.server.sessions, p, a, now, log, a == w.me, rate);
    } else {
      FitFiles(w.server.sessions[a], p, now, log, a == w.me, rate);
    }
  }

  lemma FiledOnRecord(c: Setting, w: World, p: Packet, a: Addr, now: uint64, request: uint32, rate: uint32)
    requires Inv(c, w, request, rate)
    requires ServerReceive(w.server, c.md, c.minUsec, p, a, now).1 == None && Files(c, w.server, p, a)
    ensures AcceptedOnce(Step(c, w, ServerGets(a, p, now)).facts, a)
  {
    hide Receive, Accept, FindOrOpen, RingRead, LastReceipts, Answered, CollisionFree, U32, U64, Accepts, ClientInv,
      DownInv, UpInv, Reply;
    var w2 := Step(c, w, ServerGets(a, p, now));
    if p.h.kind == PacketType.Handshake {
      assert w2.facts[|w.facts|].Accepted?;
    } else {
      assert SessionInv(w, rate, a, w.server.sessions[a]);
    }
  }

  /** The server files the packet: in a session it has, or in one it opens now. */
  lemma FilingKeeps(c: Setting, w: World, p: Packet, a: Addr, now: uint64, request: uint32, rate: uint32)
    requires Inv(c, w, request, rate) && Rates(c, request, rate) && Enabled(c, w, ServerGets(a, p, now))
    requires ServerReceive(w.server, c.md, c.minUsec, p, a, now).1 == None && Files(c, w.server, p, a)
    ensures Inv(c, Step(c, w, ServerGets(a, p, now)), request, rate)
  {
    hide ServerReceive, RingRead, LastReceipts, Answered, CollisionFree, U32, Accepts, ClientInv, DownInv, UpInv,
      NotGuessed, Files, NewFacts, NewInputs, NewServerLogs, AcceptedOnce;
    var w2 := Step(c, w, ServerGets(a, p, now));
    FactsKeep(c, w, p, a, now, request, rate);
    RestLater(c, w, w2, request, rate);
    ClientLater(c, w, w2, request, rate);
    FiledSession(c, w, p, a, now, request, rate);
    FiledOnRecord(c, w, p, a, now, request, rate);
    assert SessionInv(w2, rate, a, w2.server.sessions[a]);
    hide SessionInv;
    forall b | b in w2.server.sessions
      ensures SessionInv(w2, rate, b, w2.server.sessions[b])
    {
      if b != a { assert SessionInv(w2, rate, b, w.server.sessions[b]); }
    }
  }

  lemma Positive32(x: int)
    requires 0 <= x < 0x8000_0000
    ensures S32(x) == x
  {
  }

  lemma ServerGetsKeeps(c: Setting, w: World, p: Packet, a: Addr, now: uint64, request: uint32, rate: uint32)
    requires Inv(c, w, request, rate) && Rates(c, request, rate) && Enabled(c, w, ServerGets(a, p, now))
    ensures Inv(c, Step(c, w, ServerGets(a, p, now)), request, rate)
  {
    hide Accept, Receive, RingRead, LastReceipts, ClientInv, Answered, CollisionFree, Accepts, Reply, SessionInv,
      UpInv, DownInv, FindOrOpen, NotGuessed;
    if ServerReceive(w.server, c.md, c.minUsec, p, a, now).1.Some? {
      ReplyKeeps(c, w, p, a, now, request, rate);
    } else if Files(c, w.server, p, a) {
      FilingKeeps(c, w, p, a, now, request, rate);
    } else {
      var w2 := Step(c, w, ServerGets(a, p, now));
      FactsKeep(c, w, p, a, now, request, rate);
      RestLater(c, w, w2, request, rate);
      ClientLater(c, w, w2, request, rate);
    }
  }

  lemma StepKeeps(c: Setting, w: World, e: Event, request: uint32, rate: uint32)
    requires Inv(c, w, request, rate) && Rates(c, request, rate) && Enabled(c, w, e)
    ensures Inv(c, Step(c, w, e), request, rate)
  {
    hide Inv, Step;
    match e
    case ClientSends => ClientSendsKeeps(c, w, request, rate);
    case ClientGets(p, now) => ClientGetsKeeps(c, w, p, now, request, rate);
    case ServerSends(a) => ServerSendsKeeps(c, w, a, request, rate);
    case ServerGets(a, p, now) => ServerGetsKeeps(c, w, p, a, now, request, rate);
    case ServerEvicts(a) => ServerEvictsKeeps(c, w, a, request, rate);
    case Rotates(epoch, secret) => RotatesKeeps(c, w, epoch, secret, request, rate);
  }

  lemma {:induction false} RunKeeps(c: Setting, w0: World, es: seq<Event>, request: uint32, rate: uint32)
    requires Fresh(w0, request) && Rates(c, request, rate) && ValidRun(c, w0, es)
    ensures Inv(c, Run(c, w0, es), request, rate)
    decreases |es|
  {
    hide Inv, Step, Enabled, Fresh;
    if es == [] {
      FreshInv(c, w0, request, rate);
    } else {
      var k := |es| - 1;
      RunKeeps(c, w0, es[..k], request, rate);
      StepKeeps(c, Run(c, w0, es[..k]), es[k], request, rate);
    }
  }

  // ---- the theorems ----

  /** Agreement, over every run. The server holds a session for an address only if it issued
      a cookie to that address and later accepted the same cookie back from it, at the same
      rate. The client is established only if the server did accept it. And both then send
      at the slower of what the client asked for and what the server allows, however often
      they negotiate. */
  lemma {:induction false} HandshakeAgreement(c: Setting, w0: World, es: seq<Event>, request: uint32, rate: uint32)
    requires Fresh(w0, request) && 0 < request < 0x8000_0000 && 0 < c.minUsec < 0x8000_0000
    requires ValidRun(c, w0, es) && CollisionFree(c.md, Run(c, w0, es).hashed)
    requires rate >= request && rate >= c.minUsec && (rate == request || rate == c.minUsec)
    ensures var w := Run(c, w0, es);
      && (forall a :: a in w.server.sessions ==> EchoedFirst(w.facts, a))
      && (w.client.state == Established ==> EchoedFirst(w.facts, w.me) && w.client.usecPerPkt == rate)
      && (w.client.state == CookieGenerated ==> w.client.usecPerPkt == rate)
      && (w.me in w.server.sessions ==> w.server.sessions[w.me].usecPerPkt == rate)
      && (forall p :: p in w.down ==> p.h.usecPerPkt == rate)
  {
    RunKeeps(c, w0, es, request, rate);
    var w := Run(c, w0, es);
    hide RingRead, LastReceipts, CollisionFree, Run, ValidRun, UpInv, Fresh;
    forall a | AcceptedOnce(w.facts, a)
      ensures EchoedFirst(w.facts, a)
    {
      AcceptedEchoed(w.facts, a);
    }
    forall a | a in w.server.sessions
      ensures EchoedFirst(w.facts, a) && (a == w.me ==> w.server.sessions[a].usecPerPkt == rate)
    {
      assert SessionInv(w, rate, a, w.server.sessions[a]);
    }
    forall p | p in w.down
      ensures p.h.usecPerPkt == rate
    {
      assert DownInv(c, w, rate, p);
    }
  }

  /** A cookie issued to this address, and later accepted from it. */
  ghost predicate EchoedFirst(facts: seq<Fact>, a: Addr) {
    exists i, j :: 0 <= i < j < |facts| && EchoAt(facts, a, i, j)
  }

  ghost predicate EchoAt(facts: seq<Fact>, a: Addr, i: nat, j: nat)
    requires i < j < |facts|
  {
    facts[i].Issued? && facts[j].Accepted? && facts[i].addr == facts[j].addr == a
    && facts[i].rate == facts[j].rate && facts[i].secret == facts[j].secret
  }

  lemma AcceptedEchoed(facts: seq<Fact>, a: Addr)
    requires AcceptedOnce(facts, a) && Answered(facts)
    ensures EchoedFirst(facts, a)
  {
    var f :| f in facts && f.Accepted? && f.addr == a;
    var j :| 0 <= j < |facts| && facts[j] == f;
    assert AnsweredAt(facts, j);
    var i :| 0 <= i < j && facts[i].Issued? && InputOf(facts[i]) == InputOf(facts[j]);
    assert EchoAt(facts, a, i, j);
  }

  ghost predicate AcksOnly(p: Packet, log: seq<AckSlot>) {
    p.h.kind == PacketType.Ack && RingRead(p.data, p.h.firstAck) == LastReceipts(log)
  }

  /** A handshake carries no epoch at all or exactly the last cookie received; an ack packet
      carries the receipts filed since the ring was last cleared, and nothing else. */
  ghost predicate SaidRight(r: Said) {
    && (r.fromServer ==> r.p.h.kind == PacketType.Ack)
    && (r.p.h.kind == PacketType.Handshake ==>
          if r.cookie == None then EpochOf(r.p.data) == 0
          else r.cookie == Some((EpochOf(r.p.data), CookieOf(r.p.data))))
    && (r.p.h.kind == PacketType.Ack ==> AcksOnly(r.p, r.log))
  }

  ghost predicate AllSaidRight(w: World) {
    forall i :: 0 <= i < |w.said| ==> SaidRight(w.said[i])
  }

  lemma StepSaysRight(c: Setting, w: World, e: Event, request: uint32, rate: uint32)
    requires Inv(c, w, request, rate) && Enabled(c, w, e) && AllSaidRight(w)
    ensures AllSaidRight(Step(c, w, e))
  {
    hide RingRead, LastReceipts, CollisionFree, UpInv, DownInv, Answered, IssuedToMe, ServerReceive, ClientReceive,
      SendTx, NewServerLogs, NewFacts, NewInputs, U32;
    var w2 := Step(c, w, e);
    match e
    case ClientSends => assert SaidRight(w2.said[|w.said|]);
    case ServerSends(a) =>
      assert SessionInv(w, rate, a, w.server.sessions[a]);
      assert SaidRight(w2.said[|w.said|]);
    case _ => assert w2.said == w.said;
  }

  lemma {:induction false} RunSaysRight(c: Setting, w0: World, es: seq<Event>, request: uint32, rate: uint32)
    requires Fresh(w0, request) && Rates(c, request, rate) && ValidRun(c, w0, es)
    ensures AllSaidRight(Run(c, w0, es))
    decreases |es|
  {
    if es != [] {
      hide Inv, Step, Enabled, Fresh, SaidRight;
      var k := |es| - 1;
      RunSaysRight(c, w0, es[..k], request, rate);
      RunKeeps(c, w0, es[..k], request, rate);
      StepSaysRight(c, Run(c, w0, es[..k]), es[k], request, rate);
    }
  }

  /** The union of handshake fields and acks is never confused, in any run: whatever a session
      on either side ever sent was either a handshake with no cookie or the last one received,
      or an ack packet with the receipts filed since the ring was cleared; and no ack packet is
      ever on its way to a client that has no cookie. */
  lemma {:induction false} UnionNeverConfused(c: Setting, w0: World, es: seq<Event>, request: uint32)
    requires Fresh(w0, request) && 0 < request < 0x8000_0000 && 0 < c.minUsec < 0x8000_0000
    requires ValidRun(c, w0, es)
    ensures var w := Run(c, w0, es);
      && AllSaidRight(w)
      && (!PastRequest(w.client) ==> forall q :: q in w.down ==> q.h.kind == PacketType.Handshake)
  {
    var rate := Larger(request, c.minUsec);
    AgreedIsLarger(rate, request, c.minUsec);
    RunKeeps(c, w0, es, request, rate);
    RunSaysRight(c, w0, es, request, rate);
    var w := Run(c, w0, es);
    hide RingRead, LastReceipts, CollisionFree, Run, ValidRun, UpInv, Fresh, Answered, IssuedToMe, SaidRight;
    forall q | q in w.down
      ensures !PastRequest(w.client) ==> q.h.kind == PacketType.Handshake
    {
      assert DownInv(c, w, rate, q);
    }
  }
}
