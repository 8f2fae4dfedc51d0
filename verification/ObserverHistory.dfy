/** What an observer's connections, keys, tasks and events come from, over its iterations and whole runs. */
module ObserverHistory {
  import opened Prelude
  import opened Types
  import opened Connections
  import opened Observers
  import opened ObserverSafety

  // Connections

  lemma {:induction false} RunConcat(c: Conn, a: seq<Op>, b: seq<Op>)
    ensures Connections.Run(c, a + b) == Connections.Run(Connections.Run(c, a), b)
    decreases |b|
  {
    if b == [] {
      assert a + b == a;
    } else {
      assert Front(a + b) == a + Front(b) && Last(a + b) == Last(b);
      RunConcat(c, a, Front(b));
    }
  }

  lemma RunOne(c: Conn, op: Op)
    ensures Connections.Run(c, [op]) == Connections.Step(c, op).0
  {
    assert Front([op]) == [];
  }

  /** The packets that are handled: all up to the first event. */
  function Handled(s: State, packets: seq<Datagram>): seq<Datagram>
    decreases |packets|
  {
    if packets == [] then [] else
    var (s', event) := HandlePacket(s, packets[0]);
    [packets[0]] + if event.Some? then [] else Handled(s', packets[1..])
  }

  function ReplyOf(payload: Payload): Reply {
    if payload.ListPayload? then UnknownReply else payload.reply
  }

  /** What the packets from `a` are to its connection. */
  function Heard(packets: seq<Datagram>, a: Addr): seq<Op> {
    if packets == [] then [] else
    (if packets[0].from == a then [Receive(ReplyOf(packets[0].payload), packets[0].now)] else []) + Heard(packets[1..], a)
  }

  lemma PacketFollows(s: State, d: Datagram, a: Addr)
    requires a !in Addrs(s.masters) && a in HandlePacket(s, d).0.connections
    ensures a in s.connections
    ensures HandlePacket(s, d).0.connections[a]
         == Connections.Run(s.connections[a], if d.from == a then [Receive(ReplyOf(d.payload), d.now)] else [])
  {
    RunOne(s.connections[a], Receive(ReplyOf(d.payload), d.now));
  }

  lemma {:induction false} PacketsFollow(s: State, packets: seq<Datagram>, a: Addr)
    requires a !in Addrs(s.masters) && a in ReceiveAll(s, packets).0.connections
    ensures a in s.connections
    ensures ReceiveAll(s, packets).0.connections[a] == Connections.Run(s.connections[a], Heard(Handled(s, packets), a))
    decreases |packets|
  {
    if packets != [] {
      var d := packets[0];
      var (s', event) := HandlePacket(s, d);
      var op := if d.from == a then [Receive(ReplyOf(d.payload), d.now)] else [];
      if event.None? {
        PacketsFollow(s', packets[1..], a);
        PacketFollows(s, d, a);
        assert Handled(s, packets)[1..] == Handled(s', packets[1..]);
        RunConcat(s.connections[a], op, Heard(Handled(s', packets[1..]), a));
      } else {
        PacketFollows(s, d, a);
        assert Heard([d], a) == op;
      }
    }
  }

  /** Masters leave connections alone. */
  lemma {:induction false} MastersAreNoServers(s: State, packets: seq<Datagram>, a: Addr)
    requires a in Addrs(s.masters) && a in s.connections
    ensures a in ReceiveAll(s, packets).0.connections && ReceiveAll(s, packets).0.connections[a] == s.connections[a]
    decreases |packets|
  {
    if packets != [] {
      HandlePacketSpec(s, packets[0]);
      MastersAreNoServers(HandlePacket(s, packets[0]).0, packets[1..], a);
    }
  }

  /** The task asks a server at the clock reading of its position in the order. */
  lemma {:induction false} AskedByTask(s: State, now: nat, order: seq<Addr>, clock: seq<nat>, a: Addr)
    requires NoDups(order) && a in s.connections
    ensures var s' := AskAll(s, now, order, clock).0;
            && a in s'.connections
            && s'.connections[a] == Connections.Run(s.connections[a],
                 if a in order && Askable(s, a, now) then [Ask(At(clock, IndexOf(order, a)))] else [])
    decreases |order|
  {
    if order != [] {
      var front, last := Front(order), Last(order);
      NoDupsFront(order);
      AskedByTask(s, now, front, clock, a);
      AskAllKeeps(s, now, front, clock);
      var s' := AskAll(s, now, front, clock).0;
      assert Askable(s', last, now) <==> Askable(s, last, now);
      assert a in order <==> a in front || a == last;
      IndexInFront(order, a);
      RunOne(s.connections[a], Ask(At(clock, |order| - 1)));
    }
  }

  lemma {:induction false} IndexInFront<T>(xs: seq<T>, x: T)
    requires xs != [] && NoDups(xs)
    ensures x in Front(xs) ==> IndexOf(xs, x) == IndexOf(Front(xs), x)
    ensures x == Last(xs) ==> IndexOf(xs, x) == |xs| - 1
  {
    if x in Front(xs) {
      var i, j := IndexOf(Front(xs), x), IndexOf(xs, x);
      assert xs[i] == xs[j] == x;
    }
  }

  /** Popping the pending entries asks a server at the clock reading of its position on the stack. */
  lemma {:induction false} AskedByPending(s: State, r: Round, a: Addr)
    requires NoDups(s.pending) && a in s.connections
    ensures var s' := ProcessPending(s, r).0;
            && a in s'.connections
            && s'.connections[a] == Connections.Run(s.connections[a],
                 if PendingServer(a) in s.pending then [Ask(At(r.pendingClock, IndexOf(s.pending, PendingServer(a))))] else [])
    decreases |s.pending|
  {
    if s.pending != [] {
      var p, n := Last(s.pending), |s.pending| - 1;
      var s0 := s.(pending := Front(s.pending));
      NoDupsFront(s.pending);
      ServeTargets(s0, p, KeyAt(r.pendingKeys, n), At(r.pendingClock, n));
      var s1 := Serve(s0, p, KeyAt(r.pendingKeys, n), At(r.pendingClock, n)).0;
      AskedByPending(s1, r, a);
      IndexInFront(s.pending, PendingServer(a));
      assert PendingServer(a) in s.pending <==> PendingServer(a) in Front(s.pending) || PendingServer(a) == p;
      RunOne(s.connections[a], Ask(At(r.pendingClock, n)));
    }
  }

  /** When the iteration asks a server: by the task, or because it is pending. */
  function Asks(s: State, r: Round, a: Addr): seq<Op> {
    (if InfoDue(s, r) && Askable(s, a, r.infoNow) then [Ask(At(r.taskClock, IndexOf(r.infoOrder, a)))] else []) +
    if PendingServer(a) in s.pending then [Ask(At(r.pendingClock, IndexOf(s.pending, PendingServer(a))))] else []
  }

  /** All that happens to a server's connection in one iteration. */
  function Ops(s: State, r: Round, a: Addr): seq<Op> {
    var mid := Queries(s, r).0;
    Asks(s, r, a) + if mid.delayed != [] || a in Addrs(s.masters) then [] else Heard(Handled(mid, r.packets), a)
  }

  lemma TasksFollow(s: State, r: Round, a: Addr)
    requires WellFormed(s, r) && a in ProcessTasks(s, r).0.connections
    ensures a in s.connections
    ensures ProcessTasks(s, r).0.connections[a]
         == Connections.Run(s.connections[a],
              if InfoDue(s, r) && Askable(s, a, r.infoNow) then [Ask(At(r.taskClock, IndexOf(r.infoOrder, a)))] else [])
  {
    var s1 := MastersPhase(s, r).0;
    var s2 := s1.(infoTask := UpdateTime(s1.infoTask, r.now).0);
    assert Askable(s2, a, r.infoNow) <==> Askable(s, a, r.infoNow);
    AskAllKeeps(s2, r.infoNow, r.infoOrder, r.taskClock);
    if a in s.connections {
      AskedByTask(s2, r.infoNow, r.infoOrder, r.taskClock, a);
    }
  }

  lemma TasksKeepPending(s: State, r: Round)
    ensures var s' := ProcessTasks(s, r).0; s'.pending == s.pending && Addrs(s'.masters) == Addrs(s.masters)
  {
    var s1 := MastersPhase(s, r).0;
    var s2 := s1.(infoTask := UpdateTime(s1.infoTask, r.now).0);
    AskAllKeeps(s2, r.infoNow, r.infoOrder, r.taskClock);
    assert Addrs(Rekeyed(s.masters, r.taskKeys)) == Addrs(s.masters);
  }

  lemma QueriesFollow(s: State, r: Round, a: Addr)
    requires Distinct(s) && WellFormed(s, r) && a in Queries(s, r).0.connections
    ensures a in s.connections && Queries(s, r).0.connections[a] == Connections.Run(s.connections[a], Asks(s, r, a))
    ensures Addrs(Queries(s, r).0.masters) == Addrs(s.masters)
  {
    var s1 := ProcessTasks(s, r).0;
    TasksKeepPending(s, r);
    PendingKeepsKeys(s1, r);
    TasksFollow(s, r, a);
    AskedByPending(s1, r, a);
    RunConcat(s.connections[a],
              if InfoDue(s, r) && Askable(s, a, r.infoNow) then [Ask(At(r.taskClock, IndexOf(r.infoOrder, a)))] else [],
              if PendingServer(a) in s.pending then [Ask(At(r.pendingClock, IndexOf(s.pending, PendingServer(a))))] else []);
  }

  lemma {:induction false} PendingKeepsKeys(s: State, r: Round)
    ensures var s' := ProcessPending(s, r).0;
            s'.connections.Keys == s.connections.Keys && Addrs(s'.masters) == Addrs(s.masters)
    decreases |s.pending|
  {
    if s.pending != [] {
      var n := |s.pending| - 1;
      var s0 := s.(pending := Front(s.pending));
      ServeTargets(s0, Last(s.pending), KeyAt(r.pendingKeys, n), At(r.pendingClock, n));
      PendingKeepsKeys(Serve(s0, Last(s.pending), KeyAt(r.pendingKeys, n), At(r.pendingClock, n)).0, r);
    }
  }

  /** A connection that is still there after an iteration has gone through exactly the requests and replies of its
      server in that iteration. */
  lemma IterationFollows(s: State, r: Round, a: Addr)
    requires Distinct(s) && WellFormed(s, r) && a in Iterate(s, r).0.connections
    ensures a in s.connections && Iterate(s, r).0.connections[a] == Connections.Run(s.connections[a], Ops(s, r, a))
  {
    var mid := Queries(s, r).0;
    if mid.delayed != [] {
      QueriesFollow(s, r, a);
      assert Asks(s, r, a) + [] == Asks(s, r, a);
    } else {
      ReceiveAllKeepsKeys(mid, r.packets, a);
      QueriesFollow(s, r, a);
      if a in Addrs(s.masters) {
        MastersAreNoServers(mid, r.packets, a);
        assert Asks(s, r, a) + [] == Asks(s, r, a);
      } else {
        PacketsFollow(mid, r.packets, a);
        RunConcat(s.connections[a], Asks(s, r, a), Heard(Handled(mid, r.packets), a));
      }
    }
  }

  lemma {:induction false} ReceiveAllKeepsKeys(s: State, packets: seq<Datagram>, a: Addr)
    requires a in ReceiveAll(s, packets).0.connections
    ensures a in s.connections
    decreases |packets|
  {
    if packets != [] && HandlePacket(s, packets[0]).1.None? {
      ReceiveAllKeepsKeys(HandlePacket(s, packets[0]).0, packets[1..], a);
    }
  }

  /** Some history that starts with the insertion of a server leads to this connection. */
  ghost predicate Genuine(c: Conn) {
    exists players, start, h :: c == Connections.Run(NewConn(players, start), h)
  }

  ghost predicate AllGenuine(s: State) {
    forall a | a in s.connections :: Genuine(s.connections[a])
  }

  lemma NewIsGenuine(players: bool, now: nat)
    ensures Genuine(NewConn(players, now))
  {
    assert NewConn(players, now) == Connections.Run(NewConn(players, now), []);
  }

  lemma StillGenuine(c: Conn, ops: seq<Op>)
    requires Genuine(c)
    ensures Genuine(Connections.Run(c, ops))
  {
    var players, start: nat, h :| c == Connections.Run(NewConn(players, start), h);
    RunConcat(NewConn(players, start), h, ops);
  }

  lemma IterationKeepsGenuine(s: State, r: Round)
    requires AllGenuine(s) && Distinct(s) && WellFormed(s, r)
    ensures AllGenuine(Iterate(s, r).0)
  {
    forall a | a in Iterate(s, r).0.connections
      ensures Genuine(Iterate(s, r).0.connections[a])
    {
      IterationFollows(s, r, a);
      StillGenuine(s.connections[a], Ops(s, r, a));
    }
  }

  lemma {:induction false} LoopKeepsGenuine(s: State, deadline: Option<nat>, rounds: seq<Round>, log: seq<Query>)
    requires Inv(s) && InStep(s, log) && s.delayed == [] && AllGenuine(s)
    requires forall rec | rec in Loop(s, deadline, rounds, log).records :: WellFormed(rec.before, rec.round)
    ensures AllGenuine(Loop(s, deadline, rounds, log).state)
    ensures forall rec | rec in Loop(s, deadline, rounds, log).records :: AllGenuine(rec.before)
    decreases |rounds|
  {
    if rounds != [] && !(deadline.Some? && deadline.value <= rounds[0].now) {
      var r := rounds[0];
      var log' := log + Queries(s, r).1;
      var (s', event) := Iterate(s, r);
      assert Loop(s, deadline, rounds, log).records[0] == Record(s, r, log');
      IterationIsGood(s, r, log);
      IterationKeepsGenuine(s, r);
      if event.None? {
        var t := Loop(s', deadline, rounds[1..], log');
        assert Loop(s, deadline, rounds, log).records == [Record(s, r, log')] + t.records;
        LoopKeepsGenuine(s', deadline, rounds[1..], log');
      }
    }
  }

  lemma CallKeepsGenuine(s: State, call: Call, log: seq<Query>)
    requires Inv(s) && InStep(s, log) && AllGenuine(s)
    requires forall rec | rec in Do(s, call, log).records :: WellFormed(rec.before, rec.round)
    ensures AllGenuine(Do(s, call, log).state)
    ensures forall rec | rec in Do(s, call, log).records :: AllGenuine(rec.before)
  {
    match call
    case CallInsertServer(addr, players, now) => NewIsGenuine(players, now);
    case CallWait(deadline, rounds) => if s.delayed == [] { LoopKeepsGenuine(s, deadline, rounds, log); }
    case _ =>
  }

  lemma {:induction false} CallsKeepGenuine(s: State, calls: seq<Call>, log: seq<Query>)
    requires Inv(s) && InStep(s, log) && AllGenuine(s)
    requires forall rec | rec in RunCalls(s, calls, log).records :: WellFormed(rec.before, rec.round)
    ensures AllGenuine(RunCalls(s, calls, log).state)
    ensures forall rec | rec in RunCalls(s, calls, log).records :: AllGenuine(rec.before)
    decreases |calls|
  {
    if calls != [] {
      var t := Do(s, calls[0], log);
      var u := RunCalls(t.state, calls[1..], t.log);
      assert RunCalls(s, calls, log).records == t.records + u.records;
      CallIsGood(s, calls[0], log);
      CallKeepsGenuine(s, calls[0], log);
      CallsKeepGenuine(t.state, calls[1..], t.log);
    }
  }

  /** The notice is what a packet from `a` means to a connection with some history. */
  ghost predicate IsExpected(packets: seq<Datagram>, a: Addr, notice: Notice) {
    exists d, players, start, h :: d in packets && d.from == a
      && ExpectedNotice(players, start, h, Receive(ReplyOf(d.payload), d.now)) == Some(notice)
  }

  lemma PacketIsExpected(s: State, d: Datagram)
    requires AllGenuine(s) && HandlePacket(s, d).1.Some? && HandlePacket(s, d).1.value.ServerEvent?
    ensures var event := HandlePacket(s, d).1.value; event.server == d.from && IsExpected([d], d.from, event.notice)
  {
    var c := s.connections[d.from];
    var players, start: nat, h :| c == Connections.Run(NewConn(players, start), h);
    NoticesMatchHistory(players, start, h, Receive(ReplyOf(d.payload), d.now));
    assert d in [d];
  }

  lemma {:induction false} PacketsAreExpected(s: State, packets: seq<Datagram>)
    requires AllGenuine(s) && ReceiveAll(s, packets).1.Some? && ReceiveAll(s, packets).1.value.ServerEvent?
    ensures var event := ReceiveAll(s, packets).1.value; IsExpected(packets, event.server, event.notice)
    decreases |packets|
  {
    var d := packets[0];
    var (s', event) := HandlePacket(s, d);
    if event.Some? {
      PacketIsExpected(s, d);
      assert forall x | x in [d] :: x in packets;
    } else {
      forall a | a in s'.connections
        ensures Genuine(s'.connections[a])
      {
        if a == d.from && a !in Addrs(s.masters) {
          PacketFollows(s, d, a);
          StillGenuine(s.connections[a], [Receive(ReplyOf(d.payload), d.now)]);
        }
      }
      PacketsAreExpected(s', packets[1..]);
      assert forall x | x in packets[1..] :: x in packets;
    }
  }

  /** Main result: in every run, each connection is what some history of requests and replies since its insertion makes
      of it, so the results of Connections hold of it; and what the user is told about a server is what one of its
      packets means after such a history. */
  lemma ServersAreConnections(now: nat, calls: seq<Call>)
    requires forall rec | rec in RunCalls(Init(now), calls, []).records :: WellFormed(rec.before, rec.round)
    ensures AllGenuine(RunCalls(Init(now), calls, []).state)
    ensures forall rec | rec in RunCalls(Init(now), calls, []).records ::
              var event := Iterate(rec.before, rec.round).1;
              AllGenuine(rec.before)
              && (event.Some? && event.value.ServerEvent? ==>
                    IsExpected(rec.round.packets, event.value.server, event.value.notice))
  {
    CallsKeepGenuine(Init(now), calls, []);
    EveryRunIsGood(now, calls);
    forall rec | rec in RunCalls(Init(now), calls, []).records
      ensures var event := Iterate(rec.before, rec.round).1;
              event.Some? && event.value.ServerEvent? ==>
                IsExpected(rec.round.packets, event.value.server, event.value.notice)
    {
      IterationIsExpected(rec.before, rec.round);
    }
  }

  lemma IterationIsExpected(s: State, r: Round)
    requires AllGenuine(s) && Distinct(s) && WellFormed(s, r)
    ensures var event := Iterate(s, r).1;
            event.Some? && event.value.ServerEvent? ==> IsExpected(r.packets, event.value.server, event.value.notice)
  {
    var mid, event := Queries(s, r).0, Iterate(s, r).1;
    if event.Some? && event.value.ServerEvent? {
      forall a | a in mid.connections
        ensures Genuine(mid.connections[a])
      {
        QueriesFollow(s, r, a);
        StillGenuine(s.connections[a], Asks(s, r, a));
      }
      PacketsAreExpected(mid, r.packets);
    }
  }

  // Which connections go

  lemma {:induction false} RejectedGo(s: State, packets: seq<Datagram>, a: Addr)
    requires a in s.connections
    ensures a !in ReceiveAll(s, packets).0.connections <==>
              ReceiveAll(s, packets).1 == Some(ServerEvent(a, InvalidProtocolNotice))
    decreases |packets|
  {
    if packets != [] && HandlePacket(s, packets[0]).1.None? {
      RejectedGo(HandlePacket(s, packets[0]).0, packets[1..], a);
    }
  }

  lemma SilentGo(s: State, r: Round, a: Addr)
    requires WellFormed(s, r) && a in s.connections
    ensures a !in ProcessTasks(s, r).0.connections <==> CleanupDue(s, r) && s.connections[a].responseTime + 16_000 <= r.now
  {
    var s1 := MastersPhase(s, r).0;
    var s2 := s1.(infoTask := UpdateTime(s1.infoTask, r.now).0);
    AskAllKeeps(s2, r.infoNow, r.infoOrder, r.taskClock);
    AskAllTasks(s2, r.infoNow, r.infoOrder, r.taskClock);
  }

  /** An iteration drops a server exactly when its cleanup finds that the server has been silent for 16 seconds, or when
      the user is told that the server rejects both protocol versions. */
  lemma DroppedIff(s: State, r: Round, a: Addr)
    requires WellFormed(s, r) && a in s.connections
    ensures a !in Iterate(s, r).0.connections <==>
              || (CleanupDue(s, r) && s.connections[a].responseTime + 16_000 <= r.now)
              || Iterate(s, r).1 == Some(ServerEvent(a, InvalidProtocolNotice))
  {
    var s1, mid := ProcessTasks(s, r).0, Queries(s, r).0;
    SilentGo(s, r, a);
    PendingKeepsKeys(s1, r);
    if mid.delayed == [] {
      if a in mid.connections {
        RejectedGo(mid, r.packets, a);
      } else if a in ReceiveAll(mid, r.packets).0.connections {
        ReceiveAllKeepsKeys(mid, r.packets, a);
      }
    }
  }

  // Keys

  lemma {:induction false} MasterKeysAreDrawn(masters: seq<Master>, pending: seq<Pending>, q: Query)
    requires q in MasterQueries(masters, pending)
    ensures q.QueryMaster? && Master(q.addr, q.key) in masters
    decreases |masters|
  {
    var front, m := Front(masters), Last(masters);
    if q in MasterQueries(front, pending) {
      MasterKeysAreDrawn(front, pending, q);
      assert forall x | x in front :: x in masters;
    }
  }

  lemma {:induction false} PendingKeysAreDrawn(s: State, r: Round, q: Query) returns (i: nat)
    requires q in ProcessPending(s, r).1 && q.QueryMaster?
    ensures i < |s.pending| && s.pending[i] == PendingMaster(q.addr) && q.key == KeyAt(r.pendingKeys, i)
    decreases |s.pending|
  {
    var p, n := Last(s.pending), |s.pending| - 1;
    var s0 := s.(pending := Front(s.pending));
    var (s1, first) := Serve(s0, p, KeyAt(r.pendingKeys, n), At(r.pendingClock, n));
    if q in first {
      i := n;
    } else {
      i := PendingKeysAreDrawn(s1, r, q);
      assert s1.pending == Front(s.pending);
    }
  }

  /** Every query to a master carries a key that was drawn for it in this iteration. */
  lemma KeysAreDrawn(s: State, r: Round, q: Query)
    requires q in Queries(s, r).1 && q.QueryMaster?
    ensures || (exists i :: 0 <= i < |s.masters| && s.masters[i].addr == q.addr && q.key == KeyAt(r.taskKeys, i))
            || (exists i :: 0 <= i < |s.pending| && s.pending[i] == PendingMaster(q.addr) && q.key == KeyAt(r.pendingKeys, i))
  {
    TasksKeepPending(s, r);
    if q in ProcessPending(ProcessTasks(s, r).0, r).1 {
      var i := PendingKeysAreDrawn(ProcessTasks(s, r).0, r, q);
    } else if q in MastersPhase(s, r).1 {
      var masters := Rekeyed(s.masters, r.taskKeys);
      MasterKeysAreDrawn(masters, s.pending, q);
      var i := IndexOf(masters, Master(q.addr, q.key));
      assert s.masters[i].addr == q.addr;
    } else {
      ServersOnly(MastersPhase(s, r).0, r);
    }
  }

  lemma ServersOnly(s: State, r: Round)
    ensures forall q | q in InfoPhase(s, r).1 :: q.QueryServer?
  {
    AskAllAsksServers(s.(infoTask := UpdateTime(s.infoTask, r.now).0), r.infoNow, r.infoOrder, r.taskClock);
  }

  lemma {:induction false} AskAllAsksServers(s: State, now: nat, order: seq<Addr>, clock: seq<nat>)
    ensures forall q | q in AskAll(s, now, order, clock).1 :: q.QueryServer?
    decreases |order|
  {
    if order != [] {
      AskAllAsksServers(s, now, Front(order), clock);
    }
  }

  // Tasks

  /** A task is due once its time has come; its next time is one interval later or, if that has passed as well, one
      interval from now. */
  lemma TaskIsDueIff(t: Task, now: nat)
    requires t.interval > 0
    ensures var (t', due) := UpdateTime(t, now);
            && (due <==> t.time <= now) && t'.interval == t.interval
            && (!due ==> t' == t)
            && (due ==> now < t'.time <= now + t.interval && (now < t.time + t.interval ==> t'.time == t.time + t.interval))
  {
  }

  /** Eight seconds between queries to masters, two between queries to servers, sixteen between cleanups. */
  predicate Intervals(s: State) {
    s.serversTask.interval == 8_000 && s.infoTask.interval == 2_000 && s.cleanupTask.interval == 16_000
  }

  lemma {:induction false} PendingKeepsTasks(s: State, r: Round)
    ensures var s' := ProcessPending(s, r).0;
            && s'.delayed == s.delayed && s'.serversTask == s.serversTask
            && s'.infoTask == s.infoTask && s'.cleanupTask == s.cleanupTask
    decreases |s.pending|
  {
    if s.pending != [] {
      var n := |s.pending| - 1;
      var s0 := s.(pending := Front(s.pending));
      PendingKeepsTasks(Serve(s0, Last(s.pending), KeyAt(r.pendingKeys, n), At(r.pendingClock, n)).0, r);
    }
  }

  lemma {:induction false} AskAllKeepsTasks(s: State, now: nat, order: seq<Addr>, clock: seq<nat>)
    ensures var s' := AskAll(s, now, order, clock).0;
            s'.serversTask == s.serversTask && s'.infoTask == s.infoTask && s'.cleanupTask == s.cleanupTask
    decreases |order|
  {
    if order != [] {
      AskAllKeepsTasks(s, now, Front(order), clock);
    }
  }

  /** An iteration checks each of the tasks once, at its start. */
  lemma TasksAreChecked(s: State, r: Round)
    ensures var s' := Iterate(s, r).0;
            && s'.serversTask == UpdateTime(s.serversTask, r.now).0
            && s'.infoTask == UpdateTime(s.infoTask, r.now).0
            && s'.cleanupTask == UpdateTime(s.cleanupTask, r.now).0
  {
    var s1 := MastersPhase(s, r).0;
    AskAllKeepsTasks(s1.(infoTask := UpdateTime(s1.infoTask, r.now).0), r.infoNow, r.infoOrder, r.taskClock);
    PendingKeepsTasks(ProcessTasks(s, r).0, r);
    ReceiveAllSpec(Queries(s, r).0, r.packets);
  }

  lemma {:induction false} LoopKeepsIntervals(s: State, deadline: Option<nat>, rounds: seq<Round>, log: seq<Query>)
    requires Intervals(s)
    ensures Intervals(Loop(s, deadline, rounds, log).state)
    decreases |rounds|
  {
    if rounds != [] {
      TasksAreChecked(s, rounds[0]);
      LoopKeepsIntervals(Iterate(s, rounds[0]).0, deadline, rounds[1..], log + Queries(s, rounds[0]).1);
    }
  }

  lemma {:induction false} CallsKeepIntervals(s: State, calls: seq<Call>, log: seq<Query>)
    requires Intervals(s)
    ensures Intervals(RunCalls(s, calls, log).state)
    decreases |calls|
  {
    if calls != [] {
      if calls[0].CallWait? {
        LoopKeepsIntervals(s, calls[0].deadline, calls[0].rounds, log);
      }
      CallsKeepIntervals(Do(s, calls[0], log).state, calls[1..], Do(s, calls[0], log).log);
    }
  }

  lemma IntervalsAreFixed(now: nat, calls: seq<Call>)
    ensures Intervals(RunCalls(Init(now), calls, []).state)
  {
    CallsKeepIntervals(Init(now), calls, []);
  }
}
