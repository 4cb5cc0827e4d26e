/** The server's main loop: look at the wall clock, send what is due, read one packet. */
module ServerLoop {
  import opened Words
  import opened Wire
  import opened Engine
  import opened Scheduler
  import opened Handshake
  import opened SessionsObject

  /** One pass: the time, what the wall clock and the random generator would yield, and the packet
      that had arrived, if any. */
  datatype Pass = Pass(now: uint64, wallSeconds: uint64, random: Secret, got: Option<(Packet, Addr)>)

  /** The server, and when it last looked at the wall clock. */
  datatype State = State(srv: Server, last: uint32)

  /** The digest and the server's shortest period, fixed for the run. */
  datatype Setting = Setting(md: Digest, minUsec: uint32)

  // ---- one pass on values ----

  function Looked(s: State, i: Pass): State {
    State(s.srv.(keys := MaybeRotate(s.srv.keys, s.last, i.now, i.wallSeconds, i.random)),
          if Looks(s.last, i.now) then U32(i.now) else s.last)
  }

  /** The sessions once each has been sent what it is owed. */
  ghost function Survivors(vals: map<Addr, Sess>, now: uint64): map<Addr, Sess>
    requires AllSane(vals) && now < TIME_LIMIT
  {
    map a | a in vals && CatchUp(vals[a], a, now, true).survivor.Some? :: CatchUp(vals[a], a, now, true).survivor.value
  }

  ghost function Sent(s: State, now: uint64): State
    requires AllSane(s.srv.sessions) && now < TIME_LIMIT
  {
    s.(srv := s.srv.(sessions := Survivors(s.srv.sessions, now)))
  }

  function Read(c: Setting, s: State, i: Pass): State {
    if i.got == None then s
    else s.(srv := ServerReceive(s.srv, c.md, c.minUsec, i.got.value.0, i.got.value.1, i.now).0)
  }

  /** A packet that does not restart a session, and does not open one at a period of 0, or one that
      is negative as a signed number. */
  predicate Orderly(c: Setting, srv: Server, i: Pass) {
    i.got == None ||
    var rx, a := i.got.value.0, i.got.value.1;
    && !Restarts(srv, c.md, rx, a)
    && (Presents(srv, c.md, rx, a) ==> 1 <= rx.h.usecPerPkt < 0x8000_0000)
  }

  /** The run as long as packets are orderly; None from the first one that is not. */
  ghost function Run(c: Setting, s0: State, passes: seq<Pass>): Option<State> {
    if passes == [] then Some(s0)
    else
      var before := Run(c, s0, passes[..|passes| - 1]);
      if before.Some? then AfterPass(c, before.value, passes[|passes| - 1]) else None
  }

  ghost function AfterPass(c: Setting, s: State, i: Pass): Option<State> {
    if !AllSane(s.srv.sessions) || i.now >= TIME_LIMIT then None
    else
      var t := Sent(Looked(s, i), i.now);
      if Orderly(c, t.srv, i) then Some(Read(c, t, i)) else None
  }

  // ---- orderly packets are exactly those that leave the server able to send ----

  /** What send_waiting_packets needs. */
  ghost predicate Ready(srv: Server, queue: seq<Addr>) { OneEach(queue, srv.sessions.Keys) && AllSane(srv.sessions) }

  lemma {:induction false} ReadyIffOrderly(c: Setting, s: State, queue: seq<Addr>, i: Pass)
    requires Ready(s.srv, queue) && i.now < TIME_LIMIT
    ensures Ready(Read(c, s, i).srv, QueueRead(c, s.srv, queue, i)) <==> Orderly(c, s.srv, i)
  {
    hide OneEach, ServerReceive, Accepts, EpochOf, QueueAfter;
    if i.got != None {
      DispatchQueue(queue, s.srv, c.md, c.minUsec, i.got.value.0, i.got.value.1, i.now);
      DispatchSane(s.srv, c.md, c.minUsec, i.got.value.0, i.got.value.1, i.now);
    }
  }

  function QueueRead(c: Setting, srv: Server, queue: seq<Addr>, i: Pass): seq<Addr> {
    if i.got == None then queue else QueueAfter(queue, srv, c.md, i.got.value.0, i.got.value.1)
  }

  lemma SurvivorSane(s: Sess, a: Addr, now: uint64)
    requires Sane(s) && now < TIME_LIMIT
    ensures var f := CatchUp(s, a, now, true); f.survivor.Some? ==> Sane(f.survivor.value) && f.survivor.value.nextSend > now
  {
    hide CatchUp, OnGrid, Silent;
    ServerFate(s, a, now);
  }

  /** What send_waiting_packets leaves is what every session is owed. */
  lemma DoneLeaves(orig: map<Addr, Sess>, vals: map<Addr, Sess>, log: seq<Logged>, now: uint64)
    requires AllSane(orig) && now < TIME_LIMIT && Done(orig, vals, log, now, true)
    ensures vals == Survivors(orig, now) && AllSane(vals)
  {
    hide CatchUp, LogOf, InOrder, Sane;
    var after := Survivors(orig, now);
    forall a | a in orig
      ensures a in vals <==> a in after
      ensures a in vals ==> vals[a] == after[a] && Sane(vals[a])
    {
      assert Fate(LogOf(log, a), At(vals, a)) == CatchUp(orig[a], a, now, true);
      SurvivorSane(orig[a], a, now);
    }
  }

  /** In every run the sessions stay fit for the scheduler, so a run is only ever cut short by a
      packet that is not orderly, or by the end of 62 bits of time. */
  lemma {:induction false} RunStaysSane(c: Setting, s0: State, passes: seq<Pass>)
    requires AllSane(s0.srv.sessions)
    ensures Run(c, s0, passes).Some? ==> AllSane(Run(c, s0, passes).value.srv.sessions)
  {
    hide Sane, Survivors, Orderly, Presents, Restarts, ServerReceive, Looked;
    if passes != [] && Run(c, s0, passes).Some? {
      var k := |passes| - 1;
      RunStaysSane(c, s0, passes[..k]);
      PassStaysSane(c, Run(c, s0, passes[..k]).value, passes[k]);
    }
  }

  lemma PassStaysSane(c: Setting, s: State, i: Pass)
    requires AllSane(s.srv.sessions) && AfterPass(c, s, i).Some?
    ensures AllSane(AfterPass(c, s, i).value.srv.sessions)
  {
    hide Sane, CatchUp, ServerReceive, Accepts, EpochOf;
    var t := Sent(Looked(s, i), i.now);
    forall a | a in t.srv.sessions
      ensures Sane(t.srv.sessions[a])
    {
      SurvivorSane(s.srv.sessions[a], a, i.now);
    }
    if i.got != None { DispatchSane(t.srv, c.md, c.minUsec, i.got.value.0, i.got.value.1, i.now); }
  }

  // ---- the loop ----

  ghost predicate Holds(s: Sessions, v: State)
    reads s, s.Footprint()
  {
    && s.Valid() && s.View() == v.srv && s.lastSecretUpdateTime == v.last
    && Ready(v.srv, s.nextSends)
  }

  /** Any number of passes: as long as packets are orderly the server can always send, and ends with
      the sessions, keys and queue that it should have. */
  method ServeLoop(s: Sessions, passes: seq<Pass>, ghost v: State)
    requires Holds(s, v) && Run(Setting(s.md, s.minUsec), v, passes).Some?
    modifies s, s.Footprint()
    ensures Holds(s, Run(Setting(s.md, s.minUsec), v, passes).value)
  {
    hide Run, AfterPass, Holds;
    ghost var c := Setting(s.md, s.minUsec);
    var k := 0;
    assert passes[..0] == [];
    NoPasses(c, v);
    while k < |passes|
      invariant 0 <= k <= |passes| && Run(c, v, passes[..k]).Some?
      invariant Holds(s, Run(c, v, passes[..k]).value) && fresh(s.Footprint() - old(s.Footprint()))
    {
      OnePass(c, v, passes, k);
      ServePass(s, passes[k], Run(c, v, passes[..k]).value);
      k := k + 1;
    }
    assert passes[..k] == passes;
  }

  lemma NoPasses(c: Setting, v: State)
    ensures Run(c, v, []) == Some(v)
  {
  }

  lemma {:induction false} Prefixes(c: Setting, v: State, passes: seq<Pass>, k: nat)
    requires k <= |passes| && Run(c, v, passes).Some?
    ensures Run(c, v, passes[..k]).Some?
  {
    if k < |passes| {
      var n := |passes| - 1;
      Prefixes(c, v, passes[..n], k);
      assert passes[..n][..k] == passes[..k];
    } else {
      assert passes[..k] == passes;
    }
  }

  lemma OnePass(c: Setting, v: State, passes: seq<Pass>, k: nat)
    requires k < |passes| && Run(c, v, passes).Some?
    ensures Run(c, v, passes[..k]).Some? && Run(c, v, passes[..k + 1]).Some?
    ensures Run(c, v, passes[..k + 1]) == AfterPass(c, Run(c, v, passes[..k]).value, passes[k])
  {
    Prefixes(c, v, passes, k);
    Prefixes(c, v, passes, k + 1);
    assert passes[..k + 1][..k] == passes[..k];
  }

  method ServePass(s: Sessions, i: Pass, ghost v: State)
    requires Holds(s, v) && AfterPass(Setting(s.md, s.minUsec), v, i).Some?
    modifies s, s.Footprint()
    ensures fresh(s.Footprint() - old(s.Footprint()))
    ensures Holds(s, AfterPass(Setting(s.md, s.minUsec), v, i).value)
  {
    hide CatchUp, ServerReceive, Survivors, Done, OneEach, Sane;
    ghost var c := Setting(s.md, s.minUsec);
    s.MaybeRotateCookieSecrets(i.now, true, i.wallSeconds, i.random);
    ghost var looked := Looked(v, i);
    assert s.View() == looked.srv;
    assert s.Values().Keys == s.sessionMap.Keys;
    var log := s.SendWaitingPackets(i.now, true);
    DoneLeaves(v.srv.sessions, s.Values(), log, i.now);
    ghost var sent := Sent(looked, i.now);
    assert s.View() == sent.srv;
    assert s.Values().Keys == s.sessionMap.Keys;
    ReadyIffOrderly(c, sent, s.nextSends, i);
    if i.got.Some? {
      var reply := s.ReadIncomingPacket(i.got.value.0, i.got.value.1, i.now);
    }
  }
}
