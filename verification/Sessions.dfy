/** The Sessions class: the session map, the queue of upcoming send times, the cookies. */
module SessionsObject {
  import opened Words
  import opened Wire
  import opened Engine
  import opened Scheduler
  import opened Handshake
  import opened SessionObject

  // ---- the queue, as a sequence of addresses in no particular order ----

  /** Exactly one queue entry per session. */
  ghost predicate OneEach(queue: seq<Addr>, keys: set<Addr>) {
    multiset(queue) == multiset(keys)
  }

  lemma OneEachIn(queue: seq<Addr>, keys: set<Addr>)
    requires OneEach(queue, keys)
    ensures forall a :: a in queue <==> a in keys
  {
    forall a
      ensures a in queue <==> a in keys
    {
      assert a in queue <==> a in multiset(queue);
    }
  }

  function Without(queue: seq<Addr>, k: nat): seq<Addr>
    requires k < |queue|
  {
    queue[..k] + queue[k + 1..]
  }

  lemma Popped(queue: seq<Addr>, k: nat, keys: set<Addr>)
    requires k < |queue| && OneEach(queue, keys)
    ensures OneEach(Without(queue, k), keys - {queue[k]})
    ensures queue[k] in keys && queue[k] !in Without(queue, k)
  {
    var a := queue[k];
    assert queue == queue[..k] + [a] + queue[k + 1..];
    assert multiset(queue) == multiset(Without(queue, k)) + multiset{a};
    assert multiset(queue)[a] == 1;
    assert multiset(Without(queue, k))[a] == 0;
    forall b
      ensures multiset(Without(queue, k))[b] == multiset(keys - {a})[b]
    {
      assert multiset(keys)[b] == if b in keys then 1 else 0;
      assert multiset(keys - {a})[b] == if b in keys - {a} then 1 else 0;
    }
  }

  lemma Pushed(queue: seq<Addr>, a: Addr, keys: set<Addr>)
    requires OneEach(queue, keys) && a !in keys
    ensures OneEach(queue + [a], keys + {a})
  {
    assert multiset(queue + [a]) == multiset(queue) + multiset{a};
  }

  /** NewSession pushes an entry for `a` whether or not it had to insert a session for it, so
      it keeps one entry per session exactly when the address is new. */
  lemma {:induction false} NewSessionQueue(queue: seq<Addr>, keys: set<Addr>, a: Addr)
    requires OneEach(queue, keys)
    ensures OneEach(queue + [a], keys + {a}) <==> a !in keys
  {
    if a in keys {
      assert multiset(queue + [a])[a] == multiset(queue)[a] + 1 == multiset(keys)[a] + 1;
      assert keys + {a} == keys;
    } else {
      Pushed(queue, a, keys);
    }
  }

  /** A handshake without a cookie erases the session but not its queue entry, so it keeps one
      entry per session exactly when there was no session to erase. */
  lemma {:induction false} ErasedSessionQueue(queue: seq<Addr>, keys: set<Addr>, a: Addr)
    requires OneEach(queue, keys)
    ensures OneEach(queue, keys - {a}) <==> a !in keys
  {
    if a in keys {
      assert multiset(queue)[a] == multiset(keys)[a] == 1;
      assert multiset(keys - {a})[a] == 0;
    } else {
      assert keys - {a} == keys;
    }
  }

  /** What the server's reception of a packet does to the queue: an address that presents a good
      cookie gets an entry, whether or not it had one; nothing is ever taken out. */
  function QueueAfter(queue: seq<Addr>, srv: Server, md: Digest, rx: Packet, a: Addr): seq<Addr> {
    if Presents(srv, md, rx, a) then queue + [a] else queue
  }

  /** The whole dispatch keeps one entry per session exactly unless the packet is a handshake that
      restarts a session the server has. */
  lemma {:induction false} DispatchQueue(queue: seq<Addr>, srv: Server, md: Digest, minUsec: uint32, rx: Packet, a: Addr, now: uint64)
    requires OneEach(queue, srv.sessions.Keys)
    ensures OneEach(QueueAfter(queue, srv, md, rx, a), ServerReceive(srv, md, minUsec, rx, a, now).0.sessions.Keys)
      <==> !Restarts(srv, md, rx, a)
  {
    hide Receive, Accept, Accepts, EpochOf, CookieOf, OneEach, FindOrOpen, Reply;
    var keys, after := srv.sessions.Keys, ServerReceive(srv, md, minUsec, rx, a, now).0.sessions.Keys;
    NewSessionQueue(queue, keys, a);
    ErasedSessionQueue(queue, keys, a);
    if rx.h.kind == PacketType.Handshake {
      if EpochOf(rx.data) == 0 {
        assert after == keys - {a};
      } else if Presents(srv, md, rx, a) {
        assert after == keys + {a};
      }
    } else if a in srv.sessions {
      assert after == keys;
    }
  }

  /** And it keeps every session fit for the scheduler exactly unless it opens one at a rate that is
      not positive as a signed number. */
  lemma {:induction false} DispatchSane(srv: Server, md: Digest, minUsec: uint32, rx: Packet, a: Addr, now: uint64)
    requires AllSane(srv.sessions) && now < TIME_LIMIT
    ensures AllSane(ServerReceive(srv, md, minUsec, rx, a, now).0.sessions)
      <==> (Presents(srv, md, rx, a) && a !in srv.sessions ==> 1 <= rx.h.usecPerPkt < 0x8000_0000)
  {
    hide Receive, Accepts, EpochOf, CookieOf, Reply, AsFirstAck, NewSess;
    var after := ServerReceive(srv, md, minUsec, rx, a, now).0.sessions;
    if Presents(srv, md, rx, a) {
      if a in srv.sessions {
        ReceiveFrame(srv.sessions[a].(state := Established), AsFirstAck(rx), now);
      } else {
        OpenedSaneIff(srv, md, minUsec, rx, a, now);
      }
    } else if a in srv.sessions {
      ReceiveFrame(srv.sessions[a], rx, now);
    }
    assert forall b :: b in after && b != a ==> b in srv.sessions && after[b] == srv.sessions[b];
  }

  lemma OnlyKey(keys: set<Addr>, a: Addr)
    requires a in keys && |keys| == 1
    ensures keys == {a}
  {
    assert |keys - {a}| == 0;
  }

  // ---- how much is overdue, in all ----

  function Lag(s: Sess, now: int): nat { if s.nextSend <= now then now - s.nextSend + 1 else 0 }

  function Overdue(queue: seq<Addr>, vals: map<Addr, Sess>, now: int): nat
    requires forall a :: a in queue ==> a in vals
  {
    if queue == [] then 0
    else Overdue(queue[..|queue| - 1], vals, now) + Lag(vals[queue[|queue| - 1]], now)
  }

  lemma {:induction false} OverdueConcat(u: seq<Addr>, v: seq<Addr>, vals: map<Addr, Sess>, now: int)
    requires forall a :: a in u + v ==> a in vals
    ensures (forall a :: a in u ==> a in vals) && (forall a :: a in v ==> a in vals)
    ensures Overdue(u + v, vals, now) == Overdue(u, vals, now) + Overdue(v, vals, now)
  {
    assert forall a :: a in u ==> a in u + v;
    assert forall a :: a in v ==> a in u + v;
    if v == [] {
      assert u + v == u;
    } else {
      var k := |v| - 1;
      assert (u + v)[..|u| + k] == u + v[..k];
      OverdueConcat(u, v[..k], vals, now);
    }
  }

  lemma {:induction false} OverdueSame(queue: seq<Addr>, vals: map<Addr, Sess>, vals2: map<Addr, Sess>, now: int)
    requires forall a :: a in queue ==> a in vals && a in vals2 && vals[a] == vals2[a]
    ensures Overdue(queue, vals, now) == Overdue(queue, vals2, now)
  {
    if queue != [] { OverdueSame(queue[..|queue| - 1], vals, vals2, now); }
  }

  /** Popping a due session and pushing it back later, or not at all, leaves less overdue. */
  lemma {:induction false} LessOverdue(queue: seq<Addr>, k: nat, vals: map<Addr, Sess>, vals2: map<Addr, Sess>, now: int)
    requires k < |queue| && (forall a :: a in queue ==> a in vals)
    requires forall a :: a in Without(queue, k) ==> a in vals2 && vals2[a] == vals[a]
    requires Lag(vals[queue[k]], now) > 0
    ensures Overdue(Without(queue, k), vals2, now) < Overdue(queue, vals, now)
    ensures queue[k] in vals2 && Lag(vals2[queue[k]], now) < Lag(vals[queue[k]], now) ==>
      Overdue(Without(queue, k) + [queue[k]], vals2, now) < Overdue(queue, vals, now)
  {
    var a, u, v := queue[k], queue[..k], queue[k + 1..];
    assert queue == (u + [a]) + v;
    OverdueConcat(u + [a], v, vals, now);
    OverdueConcat(u, [a], vals, now);
    assert [a][..0] == [];
    assert Overdue([a], vals, now) == Lag(vals[a], now);
    assert forall b :: b in u ==> b in u + v;
    assert forall b :: b in v ==> b in u + v;
    OverdueConcat(u, v, vals, now);
    OverdueSame(u + v, vals, vals2, now);
    if a in vals2 && Lag(vals2[a], now) < Lag(vals[a], now) {
      assert (u + v + [a])[..|u + v|] == u + v;
    }
  }

  // ---- the log of transmissions ----

  function LogOf(log: seq<Logged>, a: Addr): seq<Logged> {
    if log == [] then []
    else
      var e := log[|log| - 1];
      LogOf(log[..|log| - 1], a) + if e.addr == a then [e] else []
  }

  ghost predicate InOrder(log: seq<Logged>) {
    forall i, j :: 0 <= i < j < |log| ==> log[i].due <= log[j].due
  }

  /** Of what session a was owed, `log` is sent and the rest is still owed. */
  ghost predicate Honoured(orig: Sess, a: Addr, now: uint64, isServer: bool, log: seq<Logged>, cur: Option<Sess>)
    requires Sane(orig) && now < TIME_LIMIT
  {
    var owed := CatchUp(orig, a, now, isServer);
    match cur
    case Some(s) =>
      Sane(s) && log + CatchUp(s, a, now, isServer).sent == owed.sent
      && CatchUp(s, a, now, isServer).survivor == owed.survivor
    case None => log == owed.sent && owed.survivor == None
  }

  ghost predicate AllSane(vals: map<Addr, Sess>) { forall a :: a in vals ==> Sane(vals[a]) }

  function At(vals: map<Addr, Sess>, a: Addr): Option<Sess> {
    if a in vals then Some(vals[a]) else None
  }

  /** Between two transmissions: every duty honoured so far, in time order, nothing early. */
  ghost predicate Underway(orig: map<Addr, Sess>, vals: map<Addr, Sess>, log: seq<Logged>, now: uint64, isServer: bool)
    requires AllSane(orig) && now < TIME_LIMIT
  {
    && vals.Keys <= orig.Keys
    && (forall a :: a in orig ==> Honoured(orig[a], a, now, isServer, LogOf(log, a), At(vals, a)))
    && (forall a :: a !in orig ==> LogOf(log, a) == [])
    && InOrder(log)
    && (forall a, i :: a in vals && 0 <= i < |log| ==> log[i].due <= vals[a].nextSend)
  }

  lemma NothingSentYet(orig: map<Addr, Sess>, now: uint64, isServer: bool)
    requires AllSane(orig) && now < TIME_LIMIT
    ensures Underway(orig, orig, [], now, isServer)
  {
    hide CatchUp;
    forall a | a in orig
      ensures Honoured(orig[a], a, now, isServer, LogOf([], a), At(orig, a))
    {
      assert [] + CatchUp(orig[a], a, now, isServer).sent == CatchUp(orig[a], a, now, isServer).sent;
    }
  }

  /** What one round of the loop makes of the sessions. */
  function AfterRound(vals: map<Addr, Sess>, a: Addr, now: uint64, isServer: bool): map<Addr, Sess>
    requires a in vals
  {
    var t := AfterOne(vals[a], isServer);
    if Silent(t, now, isServer) then vals - {a} else vals[a := t]
  }

  function Entry(s: Sess, a: Addr): Logged { Logged(a, s.nextSend, Wired(PrepareTx(s))) }

  lemma HonouredStep(orig: Sess, a: Addr, now: uint64, isServer: bool, log: seq<Logged>, s: Sess)
    requires Sane(orig) && now < TIME_LIMIT && Honoured(orig, a, now, isServer, log, Some(s))
    requires s.nextSend <= now
    ensures var t := AfterOne(s, isServer);
      Honoured(orig, a, now, isServer, log + [Entry(s, a)], if Silent(t, now, isServer) then None else Some(t))
  {
    hide SendTx, PrepareTx, Silent, Due, Sane, Diff, Diff64;
    DueExact(s, now);
    Progress(s, now, isServer);
    var t := AfterOne(s, isServer);
    if Silent(t, now, isServer) {
      assert CatchUp(s, a, now, isServer) == Fate([Entry(s, a)], None);
    } else {
      var rest := CatchUp(t, a, now, isServer);
      assert CatchUp(s, a, now, isServer) == Fate([Entry(s, a)] + rest.sent, rest.survivor);
      assert log + ([Entry(s, a)] + rest.sent) == log + [Entry(s, a)] + rest.sent;
    }
  }

  lemma Round(orig: map<Addr, Sess>, vals: map<Addr, Sess>, log: seq<Logged>, a: Addr, now: uint64, isServer: bool)
    requires AllSane(orig) && now < TIME_LIMIT && Underway(orig, vals, log, now, isServer)
    requires a in vals && vals[a].nextSend <= now
    requires forall b :: b in vals ==> vals[a].nextSend <= vals[b].nextSend
    ensures Underway(orig, AfterRound(vals, a, now, isServer), log + [Entry(vals[a], a)], now, isServer)
  {
    hide CatchUp, SendTx, PrepareTx, Silent, Honoured, LogOf;
    var s, e := vals[a], Entry(vals[a], a);
    var vals2, log' := AfterRound(vals, a, now, isServer), log + [e];
    SaneNow(orig[a], a, now, isServer, LogOf(log, a), s);
    HonouredStep(orig[a], a, now, isServer, LogOf(log, a), s);
    forall b
      ensures LogOf(log', b) == if b == a then LogOf(log, b) + [e] else LogOf(log, b)
    {
      LogGrows(log, e, b);
    }
    Progress(s, now, isServer);
    StillInOrder(vals, vals2, log, s, a, e);
  }

  lemma LogGrows(log: seq<Logged>, e: Logged, b: Addr)
    ensures LogOf(log + [e], b) == if b == e.addr then LogOf(log, b) + [e] else LogOf(log, b)
  {
    assert (log + [e])[..|log|] == log;
  }

  lemma StillInOrder(vals: map<Addr, Sess>, vals2: map<Addr, Sess>, log: seq<Logged>, s: Sess, a: Addr, e: Logged)
    requires InOrder(log) && a in vals && vals[a] == s && e.due == s.nextSend
    requires forall b, i :: b in vals && 0 <= i < |log| ==> log[i].due <= vals[b].nextSend
    requires forall b :: b in vals ==> s.nextSend <= vals[b].nextSend
    requires forall b :: b in vals2 ==> b in vals && vals2[b].nextSend >= vals[b].nextSend
    ensures InOrder(log + [e])
    ensures forall b, i :: b in vals2 && 0 <= i < |log + [e]| ==> (log + [e])[i].due <= vals2[b].nextSend
  {
  }

  lemma SaneNow(orig: Sess, a: Addr, now: uint64, isServer: bool, log: seq<Logged>, s: Sess)
    requires Sane(orig) && now < TIME_LIMIT && Honoured(orig, a, now, isServer, log, Some(s))
    ensures Sane(s)
  {
  }

  lemma TopDue(orig: map<Addr, Sess>, vals: map<Addr, Sess>, log: seq<Logged>, a: Addr, now: uint64, isServer: bool)
    requires AllSane(orig) && now < TIME_LIMIT && Underway(orig, vals, log, now, isServer) && a in vals
    ensures Diff64(now, vals[a].nextSend) >= 0 <==> vals[a].nextSend <= now
    ensures Sane(vals[a])
  {
    hide CatchUp, Honoured;
    SaneNow(orig[a], a, now, isServer, LogOf(log, a), vals[a]);
    DueExact(vals[a], now);
  }

  lemma LessAfterRound(queue: seq<Addr>, k: nat, vals: map<Addr, Sess>, now: uint64, isServer: bool)
    requires k < |queue| && (forall a :: a in queue ==> a in vals) && queue[k] !in Without(queue, k)
    requires Sane(vals[queue[k]]) && vals[queue[k]].nextSend <= now < TIME_LIMIT
    ensures var vals2 := AfterRound(vals, queue[k], now, isServer);
      var queue' := Without(queue, k) + (if queue[k] in vals2 then [queue[k]] else []);
      && (forall a :: a in queue' ==> a in vals2)
      && Overdue(queue', vals2, now) < Overdue(queue, vals, now)
  {
    hide AfterOne, Silent, Overdue;
    var a := queue[k];
    var vals2 := AfterRound(vals, a, now, isServer);
    Progress(vals[a], now, isServer);
    forall b | b in Without(queue, k)
      ensures b in queue && b in vals2 && vals2[b] == vals[b]
    {
      var i :| 0 <= i < |Without(queue, k)| && Without(queue, k)[i] == b;
      assert b == if i < k then queue[i] else queue[i + 1];
    }
    LessOverdue(queue, k, vals, vals2, now);
    if a !in vals2 { assert Without(queue, k) + [] == Without(queue, k); }
  }

  /** Every session got exactly what it was owed. */
  ghost predicate Done(orig: map<Addr, Sess>, vals: map<Addr, Sess>, log: seq<Logged>, now: uint64, isServer: bool)
    requires AllSane(orig) && now < TIME_LIMIT
  {
    && vals.Keys <= orig.Keys
    && InOrder(log)
    && (forall a :: a in orig ==>
          Fate(LogOf(log, a), At(vals, a)) == CatchUp(orig[a], a, now, isServer))
    && (forall a :: a !in orig ==> LogOf(log, a) == [])
  }

  lemma AllDone(orig: map<Addr, Sess>, vals: map<Addr, Sess>, log: seq<Logged>, now: uint64, isServer: bool)
    requires AllSane(orig) && now < TIME_LIMIT && Underway(orig, vals, log, now, isServer)
    requires forall a :: a in vals ==> vals[a].nextSend > now
    ensures Done(orig, vals, log, now, isServer)
  {
    forall a | a in orig
      ensures Fate(LogOf(log, a), At(vals, a)) == CatchUp(orig[a], a, now, isServer)
    {
      if a in vals {
        DueExact(vals[a], now);
        assert CatchUp(vals[a], a, now, isServer) == Fate([], Some(vals[a]));
        assert LogOf(log, a) + [] == LogOf(log, a);
      }
    }
  }

  /** What the server did for one session. */
  ghost predicate Served(s: Sess, a: Addr, now: uint64, mine: seq<Logged>, cur: Option<Sess>)
    requires s.usecPerPkt > 0
  {
    if s.nextSend > now then mine == [] && cur == Some(s)
    else if OverAMinute(s, now) then |mine| == 1 && OnGrid(s, a, 0, mine[0]) && cur == None
    else
      && |mine| == Owed(s, now)
      && (forall i :: 0 <= i < |mine| ==> OnGrid(s, a, i, mine[i]))
      && cur.Some? && Caught(s, cur.value, |mine|, now)
  }

  /** A call of send_waiting_packets on the server, as its caller sees it: transmissions in
      order of their scheduled times; nothing to sessions not yet due; to each due session
      exactly floor((now - next_send) / usec_per_pkt) + 1 packets on its own grid, after which it
      is due later than now; and one last packet to each session silent for over a minute. */
  lemma {:induction false} ServerRound(orig: map<Addr, Sess>, vals: map<Addr, Sess>, log: seq<Logged>, now: uint64)
    requires AllSane(orig) && now < TIME_LIMIT && Done(orig, vals, log, now, true)
    ensures InOrder(log) && vals.Keys <= orig.Keys
    ensures forall a :: a in orig ==> Served(orig[a], a, now, LogOf(log, a), At(vals, a))
    ensures forall a :: a !in orig ==> LogOf(log, a) == []
  {
    hide CatchUp, OnGrid, Caught, Silent, LogOf, Owed;
    forall a | a in orig
      ensures Served(orig[a], a, now, LogOf(log, a), At(vals, a))
    {
      ServerFate(orig[a], a, now);
    }
  }

  // ---- the class ----

  class Sessions {
    var sessionMap: map<Addr, Session>
    var nextSends: seq<Addr>
    var cookieEpoch: uint32
    var lastSecretUpdateTime: uint32
    var cookieSecret: Secret
    var prevCookieEpoch: uint32
    var prevCookieSecret: Secret
    const md: Digest       // the hash
    const minUsec: uint32  // 1e6 / packets_per_sec

    ghost function Footprint(): set<object>
      reads this`sessionMap
    {
      (set a | a in sessionMap :: sessionMap[a] as object)
      + (set a | a in sessionMap :: sessionMap[a].txData as object)
    }

    /** Sessions are objects of their own, with buffers of their own. */
    ghost predicate Valid()
      reads this`sessionMap
    {
      && this !in Footprint()
      && (forall a :: a in sessionMap ==> sessionMap[a].txData.Length == 128)
      && (forall a, b :: a in sessionMap && b in sessionMap && a != b ==>
            sessionMap[a] != sessionMap[b] && sessionMap[a].txData != sessionMap[b].txData)
    }

    ghost function Values(): map<Addr, Sess>
      requires Valid()
      reads this`sessionMap, Footprint()
    {
      map a | a in sessionMap :: sessionMap[a].State()
    }

    ghost function KeysNow(): Keys
      reads this`cookieEpoch, this`cookieSecret, this`prevCookieEpoch, this`prevCookieSecret
    {
      Keys(cookieEpoch, cookieSecret, prevCookieEpoch, prevCookieSecret)
    }

    ghost function View(): Server
      requires Valid()
      reads this`sessionMap, Footprint()
      reads this`cookieEpoch, this`cookieSecret, this`prevCookieEpoch, this`prevCookieSecret
    {
      Server(KeysNow(), Values())
    }

    /** The constructor leaves the previous epoch and secret as memory has them. */
    constructor (md: Digest, minUsec: uint32, random: Secret, junkEpoch: uint32, junkSecret: Secret)
      ensures Valid() && this.md == md && this.minUsec == minUsec
      ensures View() == Server(Keys(0, random, junkEpoch, junkSecret), map[]) && nextSends == []
      ensures lastSecretUpdateTime == 0
    {
      this.md, this.minUsec := md, minUsec;
      sessionMap, nextSends := map[], [];
      cookieEpoch, lastSecretUpdateTime := 0, 0;
      cookieSecret, prevCookieEpoch, prevCookieSecret := random, junkEpoch, junkSecret;
    }

    method RotateCookieSecrets(newEpoch: uint32, random: Secret)
      requires Valid()
      modifies this`cookieEpoch, this`cookieSecret, this`prevCookieEpoch, this`prevCookieSecret
      ensures Valid() && View() == old(View()).(keys := Rotate(old(KeysNow()), newEpoch, random))
    {
      prevCookieEpoch := cookieEpoch;
      prevCookieSecret := cookieSecret;
      cookieEpoch := newEpoch;
      cookieSecret := random;
    }

    /** The server looks now and then whether the wall clock is in a new epoch. */
    method MaybeRotateCookieSecrets(now: uint64, isServer: bool, wallSeconds: uint64, random: Secret)
      requires Valid()
      modifies this`cookieEpoch, this`cookieSecret, this`prevCookieEpoch, this`prevCookieSecret,
        this`lastSecretUpdateTime
      ensures Valid()
      ensures View() == old(View()).(keys :=
        if isServer then MaybeRotate(old(KeysNow()), old(lastSecretUpdateTime), now, wallSeconds, random) else old(KeysNow()))
      ensures lastSecretUpdateTime ==
        if isServer && Looks(old(lastSecretUpdateTime), now) then U32(now) else old(lastSecretUpdateTime)
    {
      if isServer && U64(now - lastSecretUpdateTime) > 1_000_000 {
        var newEpoch := U32(wallSeconds / 64);
        if newEpoch != cookieEpoch {
          RotateCookieSecrets(newEpoch, random);
        }
        lastSecretUpdateTime := U32(now);
      }
    }

    /** Puts a cookie for this address and the packet's rate into a handshake packet. */
    method CalculateCookie(p: Packet, a: Addr) returns (ok: bool, q: Packet)
      ensures ok <==> p.h.kind == PacketType.Handshake
      ensures q == if ok then p.(data := WithCookie(p.data, cookieEpoch, md(cookieSecret, p.h.usecPerPkt, a))) else p
    {
      if p.h.kind != PacketType.Handshake {
        return false, p;
      }
      return true, p.(data := WithCookie(p.data, cookieEpoch, md(cookieSecret, p.h.usecPerPkt, a)));
    }

    method ValidateCookie(p: Packet, a: Addr) returns (ok: bool)
      ensures ok == Accepts(KeysNow(), md, EpochOf(p.data), CookieOf(p.data), p.h.usecPerPkt, a)
    {
      var epoch := EpochOf(p.data);
      if epoch != cookieEpoch && epoch != prevCookieEpoch {
        return false;
      }
      var secret := cookieSecret;
      if epoch == prevCookieEpoch {
        secret := prevCookieSecret;
      }
      return md(secret, p.h.usecPerPkt, a) == CookieOf(p.data);
    }

    method InsertSession(firstSend: uint64, usecPerPkt: uint32, a: Addr)
      requires Valid() && a !in sessionMap
      modifies this`sessionMap
      ensures Valid() && a in sessionMap && fresh(Footprint() - old(Footprint()))
      ensures fresh(sessionMap[a]) && fresh(sessionMap[a].txData)
      ensures Values() == old(Values())[a := NewSess(firstSend, usecPerPkt)]
    {
      hide NewSess;
      var s := new Session(firstSend, usecPerPkt);
      sessionMap := sessionMap[a := s];
      assert Values() == old(Values())[a := s.State()];
    }

    lemma OneOfOurs(a: Addr)
      requires Valid() && a in sessionMap
      ensures sessionMap[a] in Footprint() && sessionMap[a].txData in Footprint()
    {
    }

    /** Inserts unless the address has a session already; pushes a queue entry in any case. */
    method NewSession(firstSend: uint64, usecPerPkt: uint32, a: Addr)
      requires Valid()
      modifies this`sessionMap, this`nextSends
      ensures Valid() && a in sessionMap && fresh(Footprint() - old(Footprint()))
      ensures a in old(sessionMap) ==> Values() == old(Values())
      ensures a !in old(sessionMap) ==> Values() == old(Values())[a := NewSess(firstSend, usecPerPkt)]
      ensures nextSends == old(nextSends) + [a]
      ensures a in old(sessionMap) ==> sessionMap[a] in old(Footprint()) && sessionMap[a].txData in old(Footprint())
      ensures a !in old(sessionMap) ==> fresh(sessionMap[a]) && fresh(sessionMap[a].txData)
    {
      hide NewSess, Valid, Footprint;
      if a !in sessionMap {
        InsertSession(firstSend, usecPerPkt, a);
      } else {
        OneOfOurs(a);
      }
      nextSends := nextSends + [a];
    }

    /** handle_ack_packet on one of our sessions, seen from the whole map. */
    method AckSession(a: Addr, rx: Packet, now: uint64, isServer: bool)
      requires Valid() && a in sessionMap
      modifies sessionMap[a], sessionMap[a].txData
      ensures Valid()
      ensures View() == old(View()).(sessions := old(Values())[a :=
        Receive(if isServer then old(Values())[a] else Establish(old(Values())[a]), rx, now).0])
    {
      hide Receive, Establish, Footprint;
      var out := sessionMap[a].HandleAck(rx, now, isServer);
      assert Values() == old(Values())[a := sessionMap[a].State()];
    }

    /** The cookie is good: open the session and treat the packet as one with no acks. */
    method AcceptClient(rx: Packet, a: Addr, now: uint64)
      requires Valid()
      modifies this`sessionMap, this`nextSends, Footprint()
      ensures Valid() && fresh(Footprint() - old(Footprint()))
      ensures KeysNow() == old(KeysNow()) && nextSends == old(nextSends) + [a]
      ensures Values() == old(Values())[a :=
        Accept(FindOrOpen(old(Values()), a, rx.h.usecPerPkt, now), rx, now).0]
    {
      hide Accept, NewSess, U64, Valid, Footprint;
      NewSession(U64(now + 10_000), rx.h.usecPerPkt, a);
      assert Values()[a] == FindOrOpen(old(Values()), a, rx.h.usecPerPkt, now);
      EstablishSession(a, rx, now);
    }

    method EstablishSession(a: Addr, rx: Packet, now: uint64)
      requires Valid() && a in sessionMap
      modifies sessionMap[a], sessionMap[a].txData
      ensures Valid()
      ensures Values() == old(Values())[a := Accept(old(Values())[a], rx, now).0]
    {
      hide Receive, AsFirstAck, Footprint;
      sessionMap[a].state := Established;
      var out := sessionMap[a].HandleAckPacket(AsFirstAck(rx), now);
      assert Values() == old(Values())[a := sessionMap[a].State()];
    }

    method EraseSession(a: Addr)
      requires Valid()
      modifies this`sessionMap
      ensures Valid() && Footprint() <= old(Footprint())
      ensures Values() == old(Values()) - {a} && sessionMap == old(sessionMap) - {a}
    {
      sessionMap := sessionMap - {a};
    }

    /** Server only: reply with a cookie, or validate the one given and open a session. */
    method HandleNewClientHandshakePacket(rx: Packet, a: Addr, now: uint64) returns (reply: Option<Packet>)
      requires Valid() && rx.h.kind == PacketType.Handshake
      modifies this`sessionMap, this`nextSends, Footprint()
      ensures Valid() && fresh(Footprint() - old(Footprint()))
      ensures View() == NewClientHandshake(old(View()), md, minUsec, rx, a, now).0
      ensures nextSends == QueueAfter(old(nextSends), old(View()), md, rx, a)
      ensures reply == NewClientHandshake(old(View()), md, minUsec, rx, a, now).1
    {
      hide Accept, FindOrOpen, Reply, Accepts, EpochOf, CookieOf, Valid;
      if EpochOf(rx.data) == 0 {
        reply := StartOver(rx, a, now);
      } else {
        reply := None;
        var ok := ValidateCookie(rx, a);
        if ok {
          AcceptClient(rx, a, now);
          assert View() == Server(old(KeysNow()), Values());
        } else {
          assert View() == old(View());
        }
      }
    }

    /** A client without a cookie: whatever session it had is erased, and it gets a cookie. */
    method StartOver(rx: Packet, a: Addr, now: uint64) returns (reply: Option<Packet>)
      requires Valid()
      modifies this`sessionMap
      ensures Valid() && Footprint() <= old(Footprint())
      ensures View() == old(View()).(sessions := old(Values()) - {a})
      ensures reply == Some(Reply(old(KeysNow()), md, minUsec, rx, a, now))
    {
      hide Reply, Valid, Footprint;
      EraseSession(a);
      reply := SendInitialHandshakeReply(rx, a, now);
    }

    method SendInitialHandshakeReply(rx: Packet, a: Addr, now: uint64) returns (reply: Option<Packet>)
      ensures reply == Some(Reply(KeysNow(), md, minUsec, rx, a, now))
      ensures Agreed(reply.value.h.usecPerPkt, rx.h.usecPerPkt, minUsec)
    {
      var rate := Larger(rx.h.usecPerPkt, minUsec);
      var tx := Packet(
        Header(rx.h.id, U32(now), U32(U32(now) - rx.h.txtime), rate, 0, PacketType.Handshake, 0), ZeroPayload());
      var ok, cooked := CalculateCookie(tx, a);
      return Some(cooked);
    }

    /** Server only: a packet from the socket, whoever sent it. */
    method ReadIncomingPacket(rx: Packet, a: Addr, now: uint64) returns (reply: Option<Packet>)
      requires Valid()
      modifies this`sessionMap, this`nextSends, Footprint()
      ensures Valid() && fresh(Footprint() - old(Footprint()))
      ensures View() == ServerReceive(old(View()), md, minUsec, rx, a, now).0
      ensures nextSends == QueueAfter(old(nextSends), old(View()), md, rx, a)
      ensures reply == ServerReceive(old(View()), md, minUsec, rx, a, now).1
    {
      hide Receive, Reply, NewClientHandshake;
      if rx.h.kind == PacketType.Handshake {
        reply := HandleNewClientHandshakePacket(rx, a, now);
      } else if a in sessionMap {
        AckSession(a, rx, now, true);
        reply := None;
      } else {
        reply := SendInitialHandshakeReply(rx, a, now);
      }
    }

    /** Client only: adopt the server's cookie; the handshake is not resent any more, the
        paced schedule starts now. */
    method HandleServerHandshakePacket(rx: Packet, now: uint64)
      requires Valid() && |sessionMap| == 1 && |nextSends| == 1
      modifies this`nextSends, Footprint()
      ensures Valid() && OneEach(nextSends, sessionMap.Keys)
      ensures forall a :: a in old(sessionMap) ==> Values() == map[a := AdoptCookie(old(Values())[a], rx, now)]
    {
      hide AdoptCookie;
      var a :| a in sessionMap;
      OnlyKey(sessionMap.Keys, a);
      nextSends := nextSends[..0];
      sessionMap[a].AdoptServerCookie(rx, now);
      nextSends := nextSends + [a];
      assert nextSends == [a];
      assert Values() == map[a := sessionMap[a].State()];
    }

    /** The client's side of read_incoming_packet: its only session takes every packet. */
    method ReadFromServer(rx: Packet, now: uint64) returns (ok: bool)
      requires Valid() && OneEach(nextSends, sessionMap.Keys) && |sessionMap| <= 1
      modifies this`nextSends, Footprint()
      ensures Valid() && OneEach(nextSends, sessionMap.Keys)
      ensures ok <==> old(sessionMap) != map[]
      ensures !ok ==> Values() == old(Values())
      ensures forall a :: a in old(sessionMap) ==> Values() == map[a := ClientReceive(old(Values())[a], rx, now)]
    {
      hide AdoptCookie, Receive, Establish;
      ok := |sessionMap| != 0;
      if !ok {
        return;
      }
      assert |multiset(nextSends)| == |multiset(sessionMap.Keys)|;
      if rx.h.kind == PacketType.Handshake {
        HandleServerHandshakePacket(rx, now);
      } else {
        var a :| a in sessionMap;
        OnlyKey(sessionMap.Keys, a);
        AckSession(a, rx, now, false);
      }
    }

    // ---- the send scheduler ----

    /** The entry of the priority queue that is due first. */
    method Top() returns (k: nat)
      requires Valid() && OneEach(nextSends, sessionMap.Keys) && nextSends != []
      ensures k < |nextSends| && nextSends[k] in sessionMap
      ensures forall a :: a in Values() ==> Values()[nextSends[k]].nextSend <= Values()[a].nextSend
    {
      hide Footprint, OneEach;
      OneEachIn(nextSends, sessionMap.Keys);
      ghost var i, j := 1, 0;
      while i < |nextSends|
        invariant 1 <= i <= |nextSends| && 0 <= j < i
        invariant forall n :: 0 <= n < i ==>
          sessionMap[nextSends[j]].nextSend <= sessionMap[nextSends[n]].nextSend
      {
        if sessionMap[nextSends[i]].nextSend < sessionMap[nextSends[j]].nextSend { j := i; }
        i := i + 1;
      }
      k :| 0 <= k < |nextSends| && forall i :: 0 <= i < |nextSends| ==>
        sessionMap[nextSends[k]].nextSend <= sessionMap[nextSends[i]].nextSend;
    }

    /** Prepares and sends one packet of one session. */
    method Transmit(a: Addr, isServer: bool) returns (e: Logged)
      requires Valid() && a in sessionMap
      modifies sessionMap[a]
      ensures Valid() && e == Entry(old(Values())[a], a)
      ensures Values() == old(Values())[a := AfterOne(old(Values())[a], isServer)]
    {
      hide PrepareTx, SendTx, Footprint;
      var due, p := sessionMap[a].Transmit(isServer);
      e := Logged(a, due, p);
      assert Values() == old(Values())[a := sessionMap[a].State()];
    }

    /** Sends one packet to one session, and drops the session if it has gone silent. */
    method Serve(a: Addr, now: uint64, isServer: bool) returns (e: Logged, evicted: bool)
      requires Valid() && a in sessionMap
      modifies this`sessionMap, sessionMap[a]
      ensures Valid() && Footprint() <= old(Footprint())
      ensures e == Entry(old(Values())[a], a) && Values() == AfterRound(old(Values()), a, now, isServer)
      ensures sessionMap == if evicted then old(sessionMap) - {a} else old(sessionMap)
    {
      hide AfterOne, Diff, Entry, Footprint;
      e := Transmit(a, isServer);
      ghost var vals := Values();
      assert sessionMap[a].State() == vals[a];
      evicted := isServer && Diff(now, sessionMap[a].lastRxtime) > SILENCE_USEC;
      if evicted {
        EraseSession(a);
        assert Values() == vals - {a};
      }
    }

    /** One round of send_waiting_packets: pop, send, then push back or evict. */
    method SendTop(k: nat, now: uint64, isServer: bool) returns (e: Logged)
      requires Valid() && OneEach(nextSends, sessionMap.Keys)
      requires k < |nextSends| && nextSends[k] in sessionMap
      modifies this`sessionMap, this`nextSends, sessionMap[nextSends[k]]
      ensures Valid() && OneEach(nextSends, sessionMap.Keys) && Footprint() <= old(Footprint())
      ensures var a, vals := old(nextSends[k]), old(Values());
        && e == Entry(vals[a], a)
        && Values() == AfterRound(vals, a, now, isServer)
        && nextSends == old(Without(nextSends, k)) + (if a in sessionMap then [a] else [])
    {
      hide AfterRound, Entry, OneEach, Without, Values, Footprint;
      var a := nextSends[k];
      ghost var keys := sessionMap.Keys;
      Popped(nextSends, k, keys);
      nextSends := Without(nextSends, k);
      var evicted;
      e, evicted := Serve(a, now, isServer);
      if evicted {
        assert sessionMap.Keys == keys - {a};
      } else {
        Pushed(nextSends, a, keys - {a});
        assert keys - {a} + {a} == keys == sessionMap.Keys;
        nextSends := nextSends + [a];
      }
    }

    /** One round seen against the whole run: duties stay honoured, less is overdue. */
    method ServeTop(k: nat, now: uint64, isServer: bool, log: seq<Logged>, ghost orig: map<Addr, Sess>)
      returns (longer: seq<Logged>)
      requires Valid() && OneEach(nextSends, sessionMap.Keys) && Queued()
      requires k < |nextSends|
      requires forall b :: b in Values() ==> Values()[nextSends[k]].nextSend <= Values()[b].nextSend
      requires AllSane(orig) && now < TIME_LIMIT && Underway(orig, Values(), log, now, isServer)
      requires Sane(Values()[nextSends[k]]) && Values()[nextSends[k]].nextSend <= now
      modifies this`sessionMap, this`nextSends, sessionMap[nextSends[k]]
      ensures Valid() && OneEach(nextSends, sessionMap.Keys) && Queued() && Footprint() <= old(Footprint())
      ensures Underway(orig, Values(), longer, now, isServer)
      ensures Overdue(nextSends, Values(), now) < old(Overdue(nextSends, Values(), now))
    {
      hide CatchUp, Silent, Underway, LogOf, AfterRound, OneEach, Entry, Without, Overdue, Sane, Footprint;
      ghost var vals, queue, a := Values(), nextSends, nextSends[k];
      Round(orig, vals, log, a, now, isServer);
      Popped(queue, k, sessionMap.Keys);
      LessAfterRound(queue, k, vals, now, isServer);
      var e := SendTop(k, now, isServer);
      longer := log + [e];
      OneEachIn(nextSends, sessionMap.Keys);
      assert sessionMap.Keys == Values().Keys;
      assert nextSends == Without(queue, k) + if a in Values() then [a] else [];
    }

    /** The queue holds sessions of the map. */
    ghost predicate Queued()
      requires Valid()
      reads this`sessionMap, this`nextSends, Footprint()
    {
      forall a :: a in nextSends <==> a in Values()
    }

    /** Sends to every session what it is owed by now, earliest first. */
    method SendWaitingPackets(now: uint64, isServer: bool) returns (log: seq<Logged>)
      requires Valid() && OneEach(nextSends, sessionMap.Keys)
      requires AllSane(Values()) && now < TIME_LIMIT
      modifies this`sessionMap, this`nextSends, Footprint()
      ensures Valid() && OneEach(nextSends, sessionMap.Keys) && Footprint() <= old(Footprint())
      ensures Done(old(Values()), Values(), log, now, isServer)
      ensures forall a :: a in Values() ==> Values()[a].nextSend > now
    {
      hide CatchUp, Underway, Done, Diff64, OneEach, Overdue;
      ghost var orig := Values();
      log := [];
      NothingSentYet(orig, now, isServer);
      OneEachIn(nextSends, sessionMap.Keys);
      var done := false;
      while !done
        invariant Valid() && OneEach(nextSends, sessionMap.Keys) && Footprint() <= old(Footprint())
        invariant Queued() && Underway(orig, Values(), log, now, isServer)
        invariant done ==> forall a :: a in Values() ==> Values()[a].nextSend > now
        decreases !done, Overdue(nextSends, Values(), now)
      {
        if |nextSends| == 0 {
          done := true;
        } else {
          var k := Top();
          ghost var vals := Values();
          TopDue(orig, vals, log, nextSends[k], now, isServer);
          assert vals[nextSends[k]] == sessionMap[nextSends[k]].State();
          if Diff64(now, sessionMap[nextSends[k]].nextSend) < 0 {
            done := true;
          } else {
            log := ServeTop(k, now, isServer, log, orig);
          }
        }
      }
      AllDone(orig, Values(), log, now, isServer);
    }
  }
}
