/** The observer object: its methods do what the functions of Observers say. What is sent is returned. */
module ObserverLoop {
  import opened Prelude
  import opened Types
  import opened Connections
  import opened Observers

  lemma NextMaster(masters: seq<Master>, pending: seq<Pending>, i: nat)
    requires i < |masters|
    ensures MasterQueries(masters[..i + 1], pending) ==
            MasterQueries(masters[..i], pending)
            + if PendingMaster(masters[i].addr) in pending then [] else [QueryMaster(masters[i].addr, masters[i].key)]
    ensures PendingMaster(masters[i].addr) in pending ==>
              MasterQueries(masters[..i + 1], pending) == MasterQueries(masters[..i], pending)
  {
    assert Front(masters[..i + 1]) == masters[..i];
  }

  lemma UnfoldLoop(s: State, deadline: Option<nat>, rounds: seq<Round>, log: seq<Query>)
    requires rounds != []
    ensures var r := rounds[0];
            var log' := log + Queries(s, r).1;
            var (s', event) := Iterate(s, r);
            var (t, u) := (Loop(s, deadline, rounds, log), Loop(s', deadline, rounds[1..], log'));
            if deadline.Some? && deadline.value <= r.now then (t.state, t.event, t.log) == (s, Some(Timeout), log)
            else if event.Some? then (t.state, t.event, t.log) == (s', event, log')
            else (t.state, t.event, t.log) == (u.state, u.event, u.log)
  {
  }

  class Observer {
    var masters: seq<Master>
    var pending: seq<Pending>
    var connections: map<Addr, Conn>
    var delayed: seq<Delayed>
    var serversTask: Task
    var infoTask: Task
    var cleanupTask: Task

    ghost function Abs(): State
      reads this
    {
      State(masters, pending, connections, delayed, serversTask, infoTask, cleanupTask)
    }

    constructor (now: nat)
      ensures Abs() == Init(now)
    {
      masters, pending, connections, delayed := [], [], map[], [];
      serversTask, infoTask := Task(now, MASTER_INTERVAL), Task(now, SERVER_INTERVAL);
      cleanupTask := Task(now, SERVER_CLEAN_INTERVAL);
    }

    method RemovePending(p: Pending)
      modifies this
      ensures Abs() == Observers.RemovePending(old(Abs()), p)
    {
      var i := IndexOf(pending, p);
      if i < |pending| {
        pending := SwapRemove(pending, i);
      }
    }

    method InsertMaster(m: Master)
      modifies this
      ensures Abs() == Observers.InsertMaster(old(Abs()), m)
    {
      if m.addr !in Addrs(masters) {
        pending := pending + [PendingMaster(m.addr)];
        masters := masters + [m];
      }
    }

    method RemoveMaster(addr: Addr) returns (removed: Option<Master>)
      modifies this
      ensures Abs() == Observers.RemoveMaster(old(Abs()), addr)
      ensures removed.Some? <==> addr in Addrs(old(masters))
      ensures removed.Some? ==> removed.value in old(masters) && removed.value.addr == addr
    {
      RemovePending(PendingMaster(addr));
      var i := IndexOf(Addrs(masters), addr);
      if i == |masters| {
        return None;
      }
      removed := Some(masters[i]);
      masters := SwapRemove(masters, i);
    }

    method InsertServer(addr: Addr, players: bool, now: nat)
      modifies this
      ensures Abs() == Observers.InsertServer(old(Abs()), addr, players, now)
    {
      if addr !in connections {
        pending := pending + [PendingServer(addr)];
        connections := connections[addr := NewConn(players, now)];
      }
    }

    method RemoveServer(addr: Addr)
      modifies this
      ensures Abs() == Observers.RemoveServer(old(Abs()), addr)
    {
      RemovePending(PendingServer(addr));
      connections := connections - {addr};
    }

    method QueryServersFromMasters(keys: seq<u32>) returns (sent: seq<Query>)
      modifies this`masters
      ensures (Abs(), sent) == Observers.QueryServersFromMasters(old(Abs()), keys)
    {
      ghost var rekeyed := Rekeyed(masters, keys);
      sent := [];
      for i := 0 to |masters|
        invariant |masters| == |rekeyed|
        invariant forall j | 0 <= j < i :: masters[j] == rekeyed[j]
        invariant forall j | i <= j < |masters| :: masters[j] == old(masters)[j]
        invariant sent == MasterQueries(rekeyed[..i], pending)
      {
        var m := Master(masters[i].addr, KeyAt(keys, i));
        masters := masters[i := m];
        NextMaster(rekeyed, pending, i);
        if PendingMaster(m.addr) in pending {
          continue;
        }
        sent := sent + [QueryMaster(m.addr, m.key)];
      }
      assert masters == rekeyed == rekeyed[..|masters|];
    }

    method QueryInfoFromServers(now: nat, order: seq<Addr>, clock: seq<nat>) returns (sent: seq<Query>)
      modifies this`connections, this`delayed
      ensures (Abs(), sent) == AskAll(old(Abs()), now, order, clock)
    {
      sent := [];
      for i := 0 to |order|
        invariant (Abs(), sent) == AskAll(old(Abs()), now, order[..i], clock)
      {
        var addr := order[i];
        assert Front(order[..i + 1]) == order[..i] && Last(order[..i + 1]) == addr;
        if addr !in connections || !IsValid(connections[addr], now) || PendingServer(addr) in pending {
          continue;
        }
        var c := connections[addr];
        if c.phase != Idle {
          delayed := delayed + [ServerTimeout(addr)];
        } else {
          assert delayed + [] == delayed;
        }
        connections := connections[addr := Connections.Query(c, At(clock, i)).0];
        sent := sent + [QueryServer(addr)];
      }
      assert order[..|order|] == order;
    }

    method CleanupServers(now: nat, order: seq<Addr>)
      modifies this`connections, this`delayed
      ensures Abs() == Observers.CleanupServers(old(Abs()), now, order)
    {
      ghost var conns := connections;
      var kept := connections;
      for i := 0 to |order|
        invariant delayed == old(delayed) + Removals(conns, now, order[..i])
        invariant kept.Keys == set a | a in conns && (IsValid(conns[a], now) || a !in order[..i])
        invariant connections == conns && forall a | a in kept :: a in conns && kept[a] == conns[a]
      {
        var addr := order[i];
        assert Front(order[..i + 1]) == order[..i] && Last(order[..i + 1]) == addr;
        assert forall a :: a in order[..i + 1] <==> a in order[..i] || a == addr;
        var more := if addr in connections && !IsValid(connections[addr], now) then [ServerRemove(addr)] else [];
        Assoc(old(delayed), Removals(conns, now, order[..i]), more);
        delayed := delayed + more;
        if more != [] {
          kept := kept - {addr};
        }
      }
      assert order[..|order|] == order;
      connections := kept;
      assert kept == Kept(conns, now, order);
    }

    method ProcessTasks(r: Round) returns (sent: seq<Query>)
      modifies this`masters, this`connections, this`delayed, this`serversTask, this`infoTask, this`cleanupTask
      ensures (Abs(), sent) == Observers.ProcessTasks(old(Abs()), r)
    {
      sent := RunMasters(r);
      var more := RunInfo(r);
      RunCleanup(r);
      sent := sent + more;
    }

    method RunMasters(r: Round) returns (sent: seq<Query>)
      modifies this`masters, this`serversTask
      ensures (Abs(), sent) == MastersPhase(old(Abs()), r)
    {
      var (task, due) := UpdateTime(serversTask, r.now);
      serversTask, sent := task, [];
      if due {
        sent := QueryServersFromMasters(r.taskKeys);
      }
    }

    method RunInfo(r: Round) returns (sent: seq<Query>)
      modifies this`connections, this`delayed, this`infoTask
      ensures (Abs(), sent) == InfoPhase(old(Abs()), r)
    {
      var (task, due) := UpdateTime(infoTask, r.now);
      infoTask, sent := task, [];
      if due {
        sent := QueryInfoFromServers(r.infoNow, r.infoOrder, r.taskClock);
      }
    }

    method RunCleanup(r: Round)
      modifies this`connections, this`delayed, this`cleanupTask
      ensures Abs() == CleanupPhase(old(Abs()), r)
    {
      var (task, due) := UpdateTime(cleanupTask, r.now);
      cleanupTask := task;
      if due {
        CleanupServers(r.now, r.cleanupOrder);
      }
    }

    method ServeMaster(addr: Addr, key: u32) returns (sent: seq<Query>)
      modifies this`masters
      ensures (Abs(), sent) == Serve(old(Abs()), PendingMaster(addr), key, 0)
    {
      var i := IndexOf(Addrs(masters), addr);
      if i == |masters| {
        return [];
      }
      masters := masters[i := Master(addr, key)];
      sent := [QueryMaster(addr, key)];
    }

    method ProcessPending(r: Round) returns (sent: seq<Query>)
      modifies this`masters, this`connections, this`pending
      ensures (Abs(), sent) == Observers.ProcessPending(old(Abs()), r)
    {
      sent := [];
      assert [] + Observers.ProcessPending(Abs(), r).1 == Observers.ProcessPending(Abs(), r).1;
      while pending != []
        invariant var (s, rest) := Observers.ProcessPending(Abs(), r);
                  (s, sent + rest) == Observers.ProcessPending(old(Abs()), r)
        decreases |pending|
      {
        var n := |pending| - 1;
        var p := pending[n];
        ghost var s0 := Abs();
        pending := pending[..n];
        var one: seq<Query> := [];
        match p {
          case PendingMaster(addr) => one := ServeMaster(addr, KeyAt(r.pendingKeys, n));
          case PendingServer(addr) =>
            if addr in connections {
              connections := connections[addr := Connections.Query(connections[addr], At(r.pendingClock, n)).0];
              one := [QueryServer(addr)];
            }
        }
        ghost var rest := Observers.ProcessPending(Abs(), r).1;
        assert Observers.ProcessPending(s0, r) == (Observers.ProcessPending(Abs(), r).0, one + rest);
        Assoc(sent, one, rest);
        sent := sent + one;
      }
      assert sent + [] == sent;
    }

    method HandlePacket(d: Datagram) returns (event: Option<Event>)
      modifies this`connections
      ensures (Abs(), event) == Observers.HandlePacket(old(Abs()), d)
    {
      var i := IndexOf(Addrs(masters), d.from);
      if i < |masters| {
        return HandleMasterPacket(masters[i], d.payload);
      }
      if d.from !in connections {
        return None;
      }
      var reply := if d.payload.ListPayload? then UnknownReply else d.payload.reply;
      var (c, notice, _) := Handle(connections[d.from], reply, d.now);
      connections := connections[d.from := c];
      if notice == Some(InvalidProtocolNotice) {
        connections := connections - {d.from};
        assert connections == old(connections) - {d.from};
      }
      event := if notice.None? then None else Some(ServerEvent(d.from, notice.value));
    }

    method Receive(packets: seq<Datagram>) returns (event: Option<Event>)
      modifies this`connections
      ensures (Abs(), event) == ReceiveAll(old(Abs()), packets)
    {
      event := None;
      var i := 0;
      while i < |packets|
        invariant i <= |packets| && event == None
        invariant ReceiveAll(Abs(), packets[i..]) == ReceiveAll(old(Abs()), packets)
      {
        assert packets[i..][1..] == packets[i + 1..];
        event := HandlePacket(packets[i]);
        if event.Some? {
          return;
        }
        i := i + 1;
      }
    }

    method PopDelayed() returns (event: Option<Event>)
      requires delayed != []
      modifies this`delayed
      ensures (Abs(), event) == Observers.PopDelayed(old(Abs()))
    {
      event := Some(DelayedEvent(Last(delayed)));
      delayed := Front(delayed);
    }

    /** One iteration behind the deadline check. */
    method RunRound(r: Round) returns (event: Option<Event>, sent: seq<Query>)
      modifies this
      ensures (Abs(), event) == Iterate(old(Abs()), r) && sent == Queries(old(Abs()), r).1
    {
      sent := ProcessTasks(r);
      var more := ProcessPending(r);
      sent := sent + more;
      if delayed != [] {
        event := PopDelayed();
      } else {
        event := Receive(r.packets);
      }
    }

    /** Waits for an event, or until the inputs run out. */
    method WaitEvent(deadline: Option<nat>, rounds: seq<Round>) returns (event: Option<Event>, sent: seq<Query>)
      modifies this
      ensures var t := Observers.WaitEvent(old(Abs()), deadline, rounds, []);
              Abs() == t.state && event == t.event && sent == t.log
    {
      event, sent := None, [];
      if delayed != [] {
        event := PopDelayed();
        return;
      }
      ghost var t := Loop(Abs(), deadline, rounds, []);
      var i := 0;
      while i < |rounds|
        invariant i <= |rounds| && event == None
        invariant var u := Loop(Abs(), deadline, rounds[i..], sent);
                  u.state == t.state && u.event == t.event && u.log == t.log
      {
        var r := rounds[i];
        assert rounds[i..][0] == r && rounds[i..][1..] == rounds[i + 1..];
        UnfoldLoop(Abs(), deadline, rounds[i..], sent);
        if deadline.Some? && deadline.value <= r.now {
          return Some(Timeout), sent;
        }
        var more: seq<Query>;
        event, more := RunRound(r);
        sent := sent + more;
        if event.Some? {
          return;
        }
        i := i + 1;
      }
    }
  }
}
