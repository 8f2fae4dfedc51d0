/** How a wait unfolds, and what becomes of delayed events; what the calls of the user do. */
module ObserverEvents {
  import opened Prelude
  import opened Types
  import opened Connections
  import opened Observers
  import opened ObserverSafety
  import opened ObserverHistory

  // One wait

  predicate Over(deadline: Option<nat>, now: nat) {
    deadline.Some? && deadline.value <= now
  }

  /** The iteration from `s` in round `r`. */
  function Iteration(s: State, r: Round, log: seq<Query>): Record {
    Record(s, r, log + Queries(s, r).1)
  }

  function After(rec: Record): State {
    Iterate(rec.before, rec.round).0
  }

  function EventOf(rec: Record): Option<Event> {
    Iterate(rec.before, rec.round).1
  }

  /** Iteration `i` starts where the one in front of it ended and adds to the log what it sends. */
  predicate Follows(s: State, log: seq<Query>, records: seq<Record>, i: nat)
    requires i < |records|
  {
    records[i] == if i == 0 then Iteration(s, records[i].round, log)
                  else Iteration(After(records[i - 1]), records[i].round, records[i - 1].log)
  }

  /** It is that of round `i`, in front of the deadline, and if it made an event it is the last one. */
  predicate InTurn(s: State, deadline: Option<nat>, rounds: seq<Round>, log: seq<Query>, records: seq<Record>, i: nat)
    requires i < |records| <= |rounds|
  {
    && Follows(s, log, records, i) && records[i].round == rounds[i] && !Over(deadline, rounds[i].now)
    && (EventOf(records[i]).Some? ==> i == |records| - 1)
  }

  predicate Unfolds(s: State, deadline: Option<nat>, rounds: seq<Round>, log: seq<Query>, records: seq<Record>) {
    |records| <= |rounds| && forall i | 0 <= i < |records| :: InTurn(s, deadline, rounds, log, records, i)
  }

  /** A wait ends with the event of its last iteration, or with a timeout in front of the first round that begins at the
      deadline or later. */
  predicate EndsWith(s: State, deadline: Option<nat>, rounds: seq<Round>, log: seq<Query>, t: Trace) {
    var n := |t.records|;
    && n <= |rounds|
    && t.state == (if n == 0 then s else After(t.records[n - 1]))
    && t.log == (if n == 0 then log else t.records[n - 1].log)
    && if n > 0 && EventOf(t.records[n - 1]).Some? then t.event == EventOf(t.records[n - 1])
       else if n < |rounds| then t.event == Some(Timeout) && Over(deadline, rounds[n].now)
       else t.event == None
  }

  lemma FirstInTurn(s: State, deadline: Option<nat>, rounds: seq<Round>, log: seq<Query>, rest: seq<Record>)
    requires |rest| < |rounds| && !Over(deadline, rounds[0].now) && EventOf(Iteration(s, rounds[0], log)).None?
    ensures InTurn(s, deadline, rounds, log, [Iteration(s, rounds[0], log)] + rest, 0)
  {
  }

  lemma NextInTurn(
      s: State, deadline: Option<nat>, rounds: seq<Round>, log: seq<Query>, rec: Record, rest: seq<Record>, i: nat)
    requires i < |rest| < |rounds| && InTurn(After(rec), deadline, rounds[1..], rec.log, rest, i)
    ensures InTurn(s, deadline, rounds, log, [rec] + rest, i + 1)
  {
    assert ([rec] + rest)[i + 1] == rest[i] && rounds[i + 1] == rounds[1..][i];
    assert Follows(s, log, [rec] + rest, i + 1);
  }

  lemma UnfoldsFirst(s: State, deadline: Option<nat>, rounds: seq<Round>, log: seq<Query>, rec: Record, rest: seq<Record>)
    requires |rest| < |rounds| && InTurn(s, deadline, rounds, log, [rec] + rest, 0)
    requires Unfolds(After(rec), deadline, rounds[1..], rec.log, rest)
    ensures Unfolds(s, deadline, rounds, log, [rec] + rest)
  {
    forall i | 0 < i < |[rec] + rest|
      ensures InTurn(s, deadline, rounds, log, [rec] + rest, i)
    {
      NextInTurn(s, deadline, rounds, log, rec, rest, i - 1);
    }
  }

  lemma LoopFirst(s: State, deadline: Option<nat>, rounds: seq<Round>, log: seq<Query>)
    requires rounds != [] && !Over(deadline, rounds[0].now)
    ensures var rec := Iteration(s, rounds[0], log);
            Loop(s, deadline, rounds, log) ==
            if EventOf(rec).Some? then Trace(After(rec), EventOf(rec), rec.log, [rec])
            else var t := Loop(After(rec), deadline, rounds[1..], rec.log); t.(records := [rec] + t.records)
  {
  }

  lemma EndsWithFirst(s: State, deadline: Option<nat>, rounds: seq<Round>, log: seq<Query>, rec: Record, t: Trace)
    requires rounds != [] && EventOf(rec).None? && EndsWith(After(rec), deadline, rounds[1..], rec.log, t)
    ensures EndsWith(s, deadline, rounds, log, t.(records := [rec] + t.records))
  {
  }

  /** Main result for one wait, whatever its rounds. */
  lemma {:induction false} LoopUnfolds(s: State, deadline: Option<nat>, rounds: seq<Round>, log: seq<Query>)
    ensures Unfolds(s, deadline, rounds, log, Loop(s, deadline, rounds, log).records)
    ensures EndsWith(s, deadline, rounds, log, Loop(s, deadline, rounds, log))
    decreases |rounds|
  {
    if rounds != [] && !Over(deadline, rounds[0].now) {
      var rec := Iteration(s, rounds[0], log);
      LoopFirst(s, deadline, rounds, log);
      if EventOf(rec).None? {
        var t := Loop(After(rec), deadline, rounds[1..], rec.log);
        LoopUnfolds(After(rec), deadline, rounds[1..], rec.log);
        FirstInTurn(s, deadline, rounds, log, t.records);
        UnfoldsFirst(s, deadline, rounds, log, rec, t.records);
        EndsWithFirst(s, deadline, rounds, log, rec, t);
      }
    }
  }

  lemma {:induction false} PacketsMakeNoTimeout(s: State, packets: seq<Datagram>)
    ensures ReceiveAll(s, packets).1 != Some(Timeout)
    ensures ReceiveAll(s, packets).1.Some? ==> !ReceiveAll(s, packets).1.value.DelayedEvent?
    decreases |packets|
  {
    if packets != [] {
      PacketsMakeNoTimeout(HandlePacket(s, packets[0]).0, packets[1..]);
    }
  }

  lemma EventIsNoTimeout(rec: Record)
    ensures EventOf(rec) != Some(Timeout)
  {
    PacketsMakeNoTimeout(Queries(rec.before, rec.round).0, rec.round.packets);
  }

  lemma EndsWithTimeoutIff(s: State, deadline: Option<nat>, rounds: seq<Round>, log: seq<Query>, t: Trace)
    requires Unfolds(s, deadline, rounds, log, t.records) && EndsWith(s, deadline, rounds, log, t)
    ensures t.event == Some(Timeout) <==>
              && |t.records| < |rounds| && Over(deadline, rounds[|t.records|].now)
              && forall rec | rec in t.records :: EventOf(rec).None?
  {
    if t.records != [] {
      EventIsNoTimeout(Last(t.records));
      assert Last(t.records) in t.records;
    }
    forall i | 0 <= i < |t.records| - 1
      ensures EventOf(t.records[i]).None?
    {
      assert InTurn(s, deadline, rounds, log, t.records, i);
    }
  }

  /** A wait times out exactly when its deadline passes before anything happens. */
  lemma TimesOutIff(s: State, deadline: Option<nat>, rounds: seq<Round>, log: seq<Query>)
    ensures var t := WaitEvent(s, deadline, rounds, log);
            t.event == Some(Timeout) <==>
              && s.delayed == [] && |t.records| < |rounds| && Over(deadline, rounds[|t.records|].now)
              && forall rec | rec in t.records :: EventOf(rec).None?
  {
    LoopUnfolds(s, deadline, rounds, log);
    EndsWithTimeoutIff(s, deadline, rounds, log, Loop(s, deadline, rounds, log));
  }

  // Delayed events over whole runs

  /** The delayed events that the iterations queue. */
  function Queued(records: seq<Record>): seq<Delayed> {
    if records == [] then [] else ProcessTasks(records[0].before, records[0].round).0.delayed + Queued(records[1..])
  }

  function Delivers(event: Option<Event>): seq<Delayed> {
    if event.Some? && event.value.DelayedEvent? then [event.value.event] else []
  }

  /** Those that the user is told. */
  function Delivered(s: State, calls: seq<Call>, log: seq<Query>): seq<Delayed>
    decreases |calls|
  {
    if calls == [] then [] else
    var t := Do(s, calls[0], log);
    Delivers(t.event) + Delivered(t.state, calls[1..], t.log)
  }

  lemma {:induction false} QueuedConcat(a: seq<Record>, b: seq<Record>)
    ensures Queued(a + b) == Queued(a) + Queued(b)
    decreases |a|
  {
    if a == [] {
      assert a + b == b && [] + Queued(b) == Queued(b);
    } else {
      assert (a + b)[0] == a[0] && (a + b)[1..] == a[1..] + b;
      QueuedConcat(a[1..], b);
      Assoc(ProcessTasks(a[0].before, a[0].round).0.delayed, Queued(a[1..]), Queued(b));
    }
  }

  lemma IterationConserves(s: State, r: Round)
    ensures var (s', event) := Iterate(s, r);
            multiset(ProcessTasks(s, r).0.delayed) == multiset(Delivers(event)) + multiset(s'.delayed)
    ensures Iterate(s, r).1.None? ==> Iterate(s, r).0.delayed == []
  {
    var mid := Queries(s, r).0;
    PendingKeepsTasks(ProcessTasks(s, r).0, r);
    ReceiveAllSpec(mid, r.packets);
    PacketsMakeNoTimeout(mid, r.packets);
    if mid.delayed != [] {
      assert mid.delayed == Front(mid.delayed) + [Last(mid.delayed)];
    }
  }

  lemma {:induction false} LoopConserves(s: State, deadline: Option<nat>, rounds: seq<Round>, log: seq<Query>)
    requires s.delayed == []
    ensures var t := Loop(s, deadline, rounds, log);
            multiset(Queued(t.records)) == multiset(Delivers(t.event)) + multiset(t.state.delayed)
    decreases |rounds|
  {
    if rounds != [] && !Over(deadline, rounds[0].now) {
      var r := rounds[0];
      var rec := Record(s, r, log + Queries(s, r).1);
      var (s', event) := Iterate(s, r);
      IterationConserves(s, r);
      if event.None? {
        LoopConserves(s', deadline, rounds[1..], rec.log);
        var t := Loop(s', deadline, rounds[1..], rec.log);
        assert ([rec] + t.records)[1..] == t.records;
      } else {
        assert Queued([rec]) == ProcessTasks(s, r).0.delayed + Queued([]);
      }
    }
  }

  lemma OtherCallsQueueNothing(s: State, call: Call, log: seq<Query>)
    requires !call.CallWait?
    ensures var t := Do(s, call, log); t.records == [] && t.event == None && t.state.delayed == s.delayed
  {
  }

  lemma WaitConserves(s: State, deadline: Option<nat>, rounds: seq<Round>, log: seq<Query>)
    ensures var t := WaitEvent(s, deadline, rounds, log);
            multiset(s.delayed) + multiset(Queued(t.records)) == multiset(Delivers(t.event)) + multiset(t.state.delayed)
  {
    if s.delayed == [] {
      LoopConserves(s, deadline, rounds, log);
    } else {
      assert s.delayed == Front(s.delayed) + [Last(s.delayed)];
    }
  }

  lemma CallConserves(s: State, call: Call, log: seq<Query>)
    ensures var t := Do(s, call, log);
            multiset(s.delayed) + multiset(Queued(t.records)) == multiset(Delivers(t.event)) + multiset(t.state.delayed)
  {
    if call.CallWait? {
      WaitConserves(s, call.deadline, call.rounds, log);
    } else {
      OtherCallsQueueNothing(s, call, log);
    }
  }

  lemma Balanced<T>(d0: multiset<T>, q1: multiset<T>, e1: multiset<T>, d1: multiset<T>, q2: multiset<T>, e2: multiset<T>,
                    d2: multiset<T>)
    requires d0 + q1 == e1 + d1 && d1 + q2 == e2 + d2
    ensures d0 + (q1 + q2) == (e1 + e2) + d2
  {
    assert d0 + (q1 + q2) == (d0 + q1) + q2 == e1 + (d1 + q2);
  }

  lemma FirstCall(s: State, calls: seq<Call>, log: seq<Query>)
    requires calls != []
    ensures var t := Do(s, calls[0], log);
            var u := RunCalls(t.state, calls[1..], t.log);
            && RunCalls(s, calls, log).state == u.state && RunCalls(s, calls, log).records == t.records + u.records
            && Delivered(s, calls, log) == Delivers(t.event) + Delivered(t.state, calls[1..], t.log)
  {
  }

  /** Main result for delayed events: over any run, every timeout and removal that was queued is told to the user once
      or still waits to be. */
  lemma {:induction false} DelayedEventsAreConserved(s: State, calls: seq<Call>, log: seq<Query>)
    ensures var t := RunCalls(s, calls, log);
            multiset(s.delayed) + multiset(Queued(t.records)) ==
            multiset(Delivered(s, calls, log)) + multiset(t.state.delayed)
    decreases |calls|
  {
    if calls != [] {
      var t := Do(s, calls[0], log);
      var u := RunCalls(t.state, calls[1..], t.log);
      var later := Delivered(t.state, calls[1..], t.log);
      FirstCall(s, calls, log);
      CallConserves(s, calls[0], log);
      DelayedEventsAreConserved(t.state, calls[1..], t.log);
      QueuedConcat(t.records, u.records);
      Balanced(multiset(s.delayed), multiset(Queued(t.records)), multiset(Delivers(t.event)), multiset(t.state.delayed),
               multiset(Queued(u.records)), multiset(later), multiset(u.state.delayed));
    }
  }

  /** A wait first tells what is left from the last one, newest first, and does nothing else. */
  lemma LeftoversComeFirst(s: State, deadline: Option<nat>, rounds: seq<Round>, log: seq<Query>)
    requires s.delayed != []
    ensures var t := WaitEvent(s, deadline, rounds, log);
            && t.event.Some? && t.event.value.DelayedEvent? && t.state == s.(delayed := t.state.delayed)
            && s.delayed == t.state.delayed + [t.event.value.event] && t.log == log && t.records == []
  {
  }

  // The calls of the user

  /** A new master is pending, a known one keeps its key. */
  lemma InsertedMaster(s: State, m: Master, x: Master, p: Pending)
    ensures var s' := InsertMaster(s, m);
            var new_ := forall y | y in s.masters :: y.addr != m.addr;
            && s' == s.(masters := s'.masters, pending := s'.pending)
            && (x in s'.masters <==> x in s.masters || (new_ && x == m))
            && (p in s'.pending <==> p in s.pending || (new_ && p == PendingMaster(m.addr)))
  {
    if m.addr in Addrs(s.masters) {
      var i := IndexOf(Addrs(s.masters), m.addr);
      assert s.masters[i] in s.masters;
    }
  }

  /** Nothing but the master and its pending entry goes. */
  lemma RemovedMaster(s: State, addr: Addr, x: Master, p: Pending)
    requires Inv(s)
    ensures var s' := RemoveMaster(s, addr);
            && s' == s.(masters := s'.masters, pending := s'.pending)
            && (x in s'.masters <==> x in s.masters && x.addr != addr)
            && (p in s'.pending <==> p in s.pending && p != PendingMaster(addr))
  {
    RemovePendingSpec(s, PendingMaster(addr));
    var i := IndexOf(Addrs(s.masters), addr);
    if i < |s.masters| {
      MastersAreDistinct(s.masters);
      SwapRemoveSpec(s.masters, i);
      SwapRemovedMasters(s.masters, i);
      if x in s.masters && x.addr == addr {
        OnlyOneAt(s.masters, i, x);
      }
    } else if x in s.masters {
      var j := IndexOf(s.masters, x);
      assert Addrs(s.masters)[j] == x.addr;
    }
  }

  lemma MastersAreDistinct(masters: seq<Master>)
    requires NoDups(Addrs(masters))
    ensures NoDups(masters)
  {
    forall i, j | 0 <= i < j < |masters|
      ensures masters[i] != masters[j]
    {
      assert Addrs(masters)[i] != Addrs(masters)[j];
    }
  }

  lemma OnlyOneAt(masters: seq<Master>, i: nat, x: Master)
    requires NoDups(Addrs(masters)) && i < |masters| && x in masters && x.addr == masters[i].addr
    ensures x == masters[i]
  {
    var j := IndexOf(masters, x);
    assert Addrs(masters)[i] == Addrs(masters)[j];
  }

  /** A new server gets a connection and is pending, a known one keeps its connection. */
  lemma InsertedServer(s: State, addr: Addr, players: bool, now: nat, p: Pending)
    ensures var s' := InsertServer(s, addr, players, now);
            && s' == s.(connections := s'.connections, pending := s'.pending)
            && addr in s'.connections && (addr !in s.connections ==> s'.connections[addr] == NewConn(players, now))
            && (forall a | a in s.connections :: a in s'.connections && s'.connections[a] == s.connections[a])
            && (forall a | a in s'.connections :: a in s.connections || a == addr)
            && (p in s'.pending <==> p in s.pending || (addr !in s.connections && p == PendingServer(addr)))
  {
  }

  /** Nothing but the server and its pending entry goes. */
  lemma RemovedServer(s: State, addr: Addr, p: Pending)
    requires Inv(s)
    ensures var s' := RemoveServer(s, addr);
            && s' == s.(connections := s'.connections, pending := s'.pending)
            && (forall a :: a in s'.connections <==> a in s.connections && a != addr)
            && (forall a | a in s'.connections :: s'.connections[a] == s.connections[a])
            && (p in s'.pending <==> p in s.pending && p != PendingServer(addr))
  {
    RemovePendingSpec(s, PendingServer(addr));
  }
}
