/** What holds in every run of an observer. */
module ObserverSafety {
  import opened Prelude
  import opened Types
  import opened Connections
  import opened Observers

  predicate NoDups<T(==)>(xs: seq<T>) {
    forall i, j | 0 <= i < j < |xs| :: xs[i] != xs[j]
  }

  predicate Known(s: State, p: Pending) {
    match p
    case PendingMaster(addr) => addr in Addrs(s.masters)
    case PendingServer(addr) => addr in s.connections
  }

  predicate Distinct(s: State) {
    NoDups(Addrs(s.masters)) && NoDups(s.pending)
  }

  /** Masters are distinct, and so are the pending entries, each of which has its master or connection. */
  predicate Inv(s: State) {
    Distinct(s) && forall p | p in s.pending :: Known(s, p)
  }

  /** The key of the last query sent to a master. */
  function LastKey(log: seq<Query>, addr: Addr): Option<u32> {
    if log == [] then None
    else if Last(log).QueryMaster? && Last(log).addr == addr then Some(Last(log).key)
    else LastKey(Front(log), addr)
  }

  /** Every master that is not pending remembers the key it was last asked with. */
  predicate InStep(s: State, log: seq<Query>) {
    forall m | m in s.masters :: PendingMaster(m.addr) in s.pending || LastKey(log, m.addr) == Some(m.key)
  }

  function Target(q: Query): Pending {
    match q
    case QueryMaster(addr, _) => PendingMaster(addr)
    case QueryServer(addr) => PendingServer(addr)
  }

  function Targets(qs: seq<Query>): (ps: seq<Pending>)
    ensures |ps| == |qs| && forall i | 0 <= i < |qs| :: ps[i] == Target(qs[i])
  {
    seq(|qs|, i requires 0 <= i < |qs| => Target(qs[i]))
  }

  // Logs

  lemma LastKeySnoc(log: seq<Query>, q: Query, addr: Addr)
    ensures LastKey(log + [q], addr) == if q.QueryMaster? && q.addr == addr then Some(q.key) else LastKey(log, addr)
  {
    assert Front(log + [q]) == log;
  }

  lemma {:induction false} LastKeyUnasked(log: seq<Query>, more: seq<Query>, addr: Addr)
    requires PendingMaster(addr) !in Targets(more)
    ensures LastKey(log + more, addr) == LastKey(log, addr)
    decreases |more|
  {
    if more == [] {
      assert log + more == log;
    } else {
      var q := Last(more);
      assert Targets(more)[|more| - 1] == Target(q);
      assert forall i | 0 <= i < |more| - 1 :: Targets(Front(more))[i] == Targets(more)[i];
      LastKeyUnasked(log, Front(more), addr);
      LastKeySnoc(log + Front(more), q, addr);
      assert log + Front(more) + [q] == log + more;
    }
  }

  lemma TargetsConcat(a: seq<Query>, b: seq<Query>)
    ensures Targets(a + b) == Targets(a) + Targets(b)
  {
  }

  lemma NoDupsConcat<T>(a: seq<T>, b: seq<T>)
    requires NoDups(a) && NoDups(b) && forall x | x in a :: x !in b
    ensures NoDups(a + b)
  {
    forall i, j | 0 <= i < j < |a + b|
      ensures (a + b)[i] != (a + b)[j]
    {
      if i < |a| <= j {
        assert a[i] in a;
      }
    }
  }

  lemma NoDupsFront<T>(xs: seq<T>)
    requires xs != [] && NoDups(xs)
    ensures NoDups(Front(xs)) && Last(xs) !in Front(xs)
  {
  }

  // User calls

  lemma SwapRemoveSpec<T>(xs: seq<T>, i: nat)
    requires i < |xs| && NoDups(xs)
    ensures NoDups(SwapRemove(xs, i)) && forall x :: x in SwapRemove(xs, i) <==> x in xs && x != xs[i]
  {
    var ys := SwapRemove(xs, i);
    forall x | x in xs && x != xs[i]
      ensures x in ys
    {
      var j := IndexOf(xs, x);
      assert if j == |xs| - 1 then ys[i] == x else ys[j] == x;
    }
  }

  lemma RemovePendingSpec(s: State, p: Pending)
    requires NoDups(s.pending)
    ensures var s' := RemovePending(s, p);
            && s' == s.(pending := s'.pending) && NoDups(s'.pending)
            && forall q :: q in s'.pending <==> q in s.pending && q != p
  {
    var i := IndexOf(s.pending, p);
    if i < |s.pending| {
      SwapRemoveSpec(s.pending, i);
    }
  }

  lemma AddrsSwapRemove(masters: seq<Master>, i: nat)
    requires i < |masters|
    ensures Addrs(SwapRemove(masters, i)) == SwapRemove(Addrs(masters), i)
  {
  }

  lemma UnknownIsNotPending(s: State, p: Pending)
    requires Inv(s) && !Known(s, p)
    ensures p !in s.pending
  {
  }

  lemma InsertMasterKeepsInv(s: State, m: Master, log: seq<Query>)
    requires Inv(s) && InStep(s, log)
    ensures Inv(InsertMaster(s, m)) && InStep(InsertMaster(s, m), log)
  {
    if m.addr !in Addrs(s.masters) {
      assert Addrs(s.masters + [m]) == Addrs(s.masters) + [m.addr];
      UnknownIsNotPending(s, PendingMaster(m.addr));
      NoDupsConcat(Addrs(s.masters), [m.addr]);
      NoDupsConcat(s.pending, [PendingMaster(m.addr)]);
    }
  }

  lemma InsertServerKeepsInv(s: State, addr: Addr, players: bool, now: nat, log: seq<Query>)
    requires Inv(s) && InStep(s, log)
    ensures Inv(InsertServer(s, addr, players, now)) && InStep(InsertServer(s, addr, players, now), log)
  {
    if addr !in s.connections {
      UnknownIsNotPending(s, PendingServer(addr));
      NoDupsConcat(s.pending, [PendingServer(addr)]);
    }
  }

  lemma RemoveServerKeepsInv(s: State, addr: Addr, log: seq<Query>)
    requires Inv(s) && InStep(s, log)
    ensures Inv(RemoveServer(s, addr)) && InStep(RemoveServer(s, addr), log)
  {
    RemovePendingSpec(s, PendingServer(addr));
  }

  lemma RemoveMasterKeepsInv(s: State, addr: Addr, log: seq<Query>)
    requires Inv(s) && InStep(s, log)
    ensures Inv(RemoveMaster(s, addr)) && InStep(RemoveMaster(s, addr), log)
  {
    RemovePendingSpec(s, PendingMaster(addr));
    var i := IndexOf(Addrs(s.masters), addr);
    if i < |s.masters| {
      AddrsSwapRemove(s.masters, i);
      SwapRemoveSpec(Addrs(s.masters), i);
      SwapRemovedMasters(s.masters, i);
    }
  }

  lemma SwapRemovedMasters(masters: seq<Master>, i: nat)
    requires i < |masters| && NoDups(Addrs(masters))
    ensures forall m | m in SwapRemove(masters, i) :: m in masters && m.addr != masters[i].addr
  {
    var addrs := Addrs(masters);
    assert forall j, k | 0 <= j < k < |masters| :: addrs[j] != addrs[k];
  }

  // The masters phase

  lemma AddrsSplit(masters: seq<Master>)
    requires masters != []
    ensures forall a :: a in Addrs(masters) <==> a in Addrs(Front(masters)) || a == Last(masters).addr
  {
    assert Addrs(masters) == Addrs(Front(masters)) + [Last(masters).addr];
  }

  lemma {:induction false} MasterQueriesSpec(masters: seq<Master>, pending: seq<Pending>)
    requires NoDups(Addrs(masters))
    ensures var ts := Targets(MasterQueries(masters, pending));
            && NoDups(ts)
            && forall t :: t in ts <==> t.PendingMaster? && t.addr in Addrs(masters) && t !in pending
    decreases |masters|
  {
    if masters != [] {
      var m, front := Last(masters), Front(masters);
      AddrsSplit(masters);
      NoDupsFront(Addrs(masters));
      assert Addrs(front) == Front(Addrs(masters));
      MasterQueriesSpec(front, pending);
      var first := MasterQueries(front, pending);
      if PendingMaster(m.addr) !in pending {
        TargetsConcat(first, [QueryMaster(m.addr, m.key)]);
        assert Targets([QueryMaster(m.addr, m.key)]) == [PendingMaster(m.addr)];
        assert Addrs(masters)[|front|] == m.addr;
        NoDupsConcat(Targets(first), [PendingMaster(m.addr)]);
      } else {
        assert first + [] == first;
      }
    }
  }

  lemma {:induction false} MasterQueriesInStep(masters: seq<Master>, pending: seq<Pending>, log: seq<Query>, m: Master)
    requires NoDups(Addrs(masters)) && m in masters && PendingMaster(m.addr) !in pending
    ensures LastKey(log + MasterQueries(masters, pending), m.addr) == Some(m.key)
    decreases |masters|
  {
    var last, front := Last(masters), Front(masters);
    var qs := MasterQueries(front, pending);
    NoDupsFront(Addrs(masters));
    assert Addrs(front) == Front(Addrs(masters));
    if m == last {
      assert log + (qs + [QueryMaster(m.addr, m.key)]) == log + qs + [QueryMaster(m.addr, m.key)];
      LastKeySnoc(log + qs, QueryMaster(m.addr, m.key), m.addr);
    } else {
      assert m in front;
      MasterQueriesInStep(front, pending, log, m);
      var i := IndexOf(front, m);
      assert Addrs(front)[i] == m.addr;
      if PendingMaster(last.addr) in pending {
        assert qs + [] == qs;
      } else {
        assert log + (qs + [QueryMaster(last.addr, last.key)]) == log + qs + [QueryMaster(last.addr, last.key)];
        LastKeySnoc(log + qs, QueryMaster(last.addr, last.key), m.addr);
      }
    }
  }

  predicate MastersDue(s: State, r: Round) {
    UpdateTime(s.serversTask, r.now).1
  }

  lemma MastersPhaseSpec(s: State, r: Round, log: seq<Query>)
    requires Inv(s) && InStep(s, log)
    ensures var (s', sent) := MastersPhase(s, r);
            && s' == s.(masters := s'.masters, serversTask := s'.serversTask) && Inv(s')
            && Addrs(s'.masters) == Addrs(s.masters) && NoDups(Targets(sent))
            && forall t :: t in Targets(sent) <==>
                 MastersDue(s, r) && t.PendingMaster? && t.addr in Addrs(s.masters) && t !in s.pending
    ensures InStep(MastersPhase(s, r).0, log + MastersPhase(s, r).1)
  {
    if UpdateTime(s.serversTask, r.now).1 {
      var masters := Rekeyed(s.masters, r.taskKeys);
      assert Addrs(masters) == Addrs(s.masters);
      MasterQueriesSpec(masters, s.pending);
      forall m | m in masters && PendingMaster(m.addr) !in s.pending
        ensures LastKey(log + MasterQueries(masters, s.pending), m.addr) == Some(m.key)
      {
        MasterQueriesInStep(masters, s.pending, log, m);
      }
    } else {
      assert log + [] == log;
    }
  }

  // The info phase

  /** What asking leaves alone. */
  predicate SameServers(s: State, s': State) {
    && s'.masters == s.masters && s'.pending == s.pending && s'.connections.Keys == s.connections.Keys
    && forall a | a in s.connections :: s'.connections[a].responseTime == s.connections[a].responseTime
  }

  function Timeouts(s: State, now: nat, order: seq<Addr>): seq<Delayed> {
    if order == [] then [] else
    var addr := Last(order);
    Timeouts(s, now, Front(order)) +
    if Askable(s, addr, now) && s.connections[addr].phase != Idle then [ServerTimeout(addr)] else []
  }

  lemma AskOneSpec(s: State, addr: Addr, time: nat)
    requires addr in s.connections
    ensures SameServers(s, AskOne(s, addr, time))
    ensures forall a | a in s.connections && a != addr :: AskOne(s, addr, time).connections[a] == s.connections[a]
  {
  }

  lemma {:induction false} AskAllKeeps(s: State, now: nat, order: seq<Addr>, clock: seq<nat>)
    ensures SameServers(s, AskAll(s, now, order, clock).0)
    ensures forall a | a in s.connections && a !in order ::
              AskAll(s, now, order, clock).0.connections[a] == s.connections[a]
    decreases |order|
  {
    if order != [] {
      AskAllKeeps(s, now, Front(order), clock);
      var s' := AskAll(s, now, Front(order), clock).0;
      assert forall a | a !in order :: a !in Front(order) && a != Last(order);
      if Askable(s', Last(order), now) {
        AskOneSpec(s', Last(order), At(clock, |order| - 1));
      }
    }
  }

  lemma {:induction false} AskAllDelays(s: State, now: nat, order: seq<Addr>, clock: seq<nat>)
    requires NoDups(order)
    ensures AskAll(s, now, order, clock).0.delayed == s.delayed + Timeouts(s, now, order)
    decreases |order|
  {
    if order == [] {
      assert s.delayed + [] == s.delayed;
    } else {
      NoDupsFront(order);
      AskAllDelays(s, now, Front(order), clock);
      AskAllKeeps(s, now, Front(order), clock);
      var s', addr := AskAll(s, now, Front(order), clock).0, Last(order);
      assert Askable(s', addr, now) <==> Askable(s, addr, now);
      Assoc(s.delayed, Timeouts(s, now, Front(order)),
            if Askable(s, addr, now) && s.connections[addr].phase != Idle then [ServerTimeout(addr)] else []);
    }
  }

  lemma {:induction false} AskAllTargets(s: State, now: nat, order: seq<Addr>, clock: seq<nat>)
    requires NoDups(order)
    ensures var ts := Targets(AskAll(s, now, order, clock).1);
            NoDups(ts) && forall t :: t in ts <==> t.PendingServer? && t.addr in order && Askable(s, t.addr, now)
    decreases |order|
  {
    if order != [] {
      NoDupsFront(order);
      AskAllTargets(s, now, Front(order), clock);
      AskAllKeeps(s, now, Front(order), clock);
      var (s', sent) := AskAll(s, now, Front(order), clock);
      var addr := Last(order);
      assert forall a :: a in order <==> a in Front(order) || a == addr;
      assert Askable(s', addr, now) <==> Askable(s, addr, now);
      if Askable(s', addr, now) {
        TargetsConcat(sent, [QueryServer(addr)]);
        assert Targets([QueryServer(addr)]) == [PendingServer(addr)];
        NoDupsConcat(Targets(sent), [PendingServer(addr)]);
      }
    }
  }

  lemma {:induction false} TimeoutsSpec(s: State, now: nat, order: seq<Addr>)
    requires NoDups(order)
    ensures var ds := Timeouts(s, now, order);
            && (forall i, j | 0 <= i < j < |ds| :: ds[i].addr != ds[j].addr)
            && (forall d :: d in ds <==>
                  d.ServerTimeout? && d.addr in order && Askable(s, d.addr, now) && s.connections[d.addr].phase != Idle)
    decreases |order|
  {
    if order != [] {
      NoDupsFront(order);
      TimeoutsSpec(s, now, Front(order));
      var front := Timeouts(s, now, Front(order));
      assert forall a :: a in order <==> a in Front(order) || a == Last(order);
      assert forall i | 0 <= i < |front| :: front[i] in front;
    }
  }

  // The cleanup phase

  lemma {:induction false} RemovalsSpec(conns: map<Addr, Conn>, now: nat, order: seq<Addr>)
    requires NoDups(order)
    ensures var ds := Removals(conns, now, order);
            && (forall i, j | 0 <= i < j < |ds| :: ds[i].addr != ds[j].addr)
            && (forall d :: d in ds <==>
                  d.ServerRemove? && d.addr in order && d.addr in conns && !IsValid(conns[d.addr], now))
    decreases |order|
  {
    if order != [] {
      NoDupsFront(order);
      RemovalsSpec(conns, now, Front(order));
      var front := Removals(conns, now, Front(order));
      assert forall a :: a in order <==> a in Front(order) || a == Last(order);
      assert forall i | 0 <= i < |front| :: front[i] in front;
    }
  }

  /** What the tasks leave behind: pending entries may have lost their connection. */
  predicate TasksDone(s: State, s': State) {
    && Distinct(s') && s'.pending == s.pending && Addrs(s'.masters) == Addrs(s.masters)
    && s'.connections.Keys <= s.connections.Keys
  }

  /** No server query, and so no key, hides among server queries. */
  lemma OnlyServersAsked(s: State, log: seq<Query>, more: seq<Query>)
    requires InStep(s, log) && forall t | t in Targets(more) :: t.PendingServer?
    ensures InStep(s, log + more)
  {
    forall m | m in s.masters
      ensures LastKey(log + more, m.addr) == LastKey(log, m.addr)
    {
      LastKeyUnasked(log, more, m.addr);
    }
  }

  ghost predicate WellFormed(s: State, r: Round) {
    && NoDups(r.infoOrder) && (forall a :: a in r.infoOrder <==> a in s.connections)
    && NoDups(r.cleanupOrder) && (forall a :: a in r.cleanupOrder <==> a in s.connections)
    && r.now <= r.infoNow
  }

  predicate InfoDue(s: State, r: Round) {
    UpdateTime(s.infoTask, r.now).1
  }

  predicate CleanupDue(s: State, r: Round) {
    UpdateTime(s.cleanupTask, r.now).1
  }

  /** The info phase asks every server at most once and none that is pending. */
  lemma InfoPhaseSpec(s: State, r: Round, log: seq<Query>)
    requires Distinct(s) && InStep(s, log) && WellFormed(s, r)
    ensures var (s', sent) := InfoPhase(s, r);
            && SameServers(s, s') && NoDups(Targets(sent))
            && forall t :: t in Targets(sent) <==> InfoDue(s, r) && t.PendingServer? && Askable(s, t.addr, r.infoNow)
    ensures InStep(InfoPhase(s, r).0, log + InfoPhase(s, r).1)
  {
    var s0 := s.(infoTask := UpdateTime(s.infoTask, r.now).0);
    if UpdateTime(s.infoTask, r.now).1 {
      AskAllKeeps(s0, r.infoNow, r.infoOrder, r.taskClock);
      AskAllTargets(s0, r.infoNow, r.infoOrder, r.taskClock);
    }
    OnlyServersAsked(s, log, InfoPhase(s, r).1);
  }

  /** The masters and servers that the tasks ask. */
  predicate AskedByTasks(s: State, r: Round, t: Pending) {
    match t
    case PendingMaster(addr) => MastersDue(s, r) && addr in Addrs(s.masters) && t !in s.pending
    case PendingServer(addr) => InfoDue(s, r) && Askable(s, addr, r.infoNow)
  }

  lemma ProcessTasksSpec(s: State, r: Round, log: seq<Query>)
    requires Inv(s) && InStep(s, log) && WellFormed(s, r)
    ensures var (s', sent) := ProcessTasks(s, r);
            && TasksDone(s, s') && InStep(s', log + sent)
            && NoDups(Targets(sent)) && forall t :: t in Targets(sent) <==> AskedByTasks(s, r, t)
  {
    MastersPhaseSpec(s, r, log);
    var (s1, toMasters) := MastersPhase(s, r);
    InfoPhaseSpec(s1, r, log + toMasters);
    var (s2, toServers) := InfoPhase(s1, r);
    TargetsConcat(toMasters, toServers);
    NoDupsConcat(Targets(toMasters), Targets(toServers));
    Assoc(log, toMasters, toServers);
  }

  // The pending phase

  lemma ServeTargets(s: State, p: Pending, key: u32, time: nat)
    ensures var (s', sent) := Serve(s, p, key, time);
            && s' == s.(masters := s'.masters, connections := s'.connections)
            && Addrs(s'.masters) == Addrs(s.masters) && s'.connections.Keys == s.connections.Keys
            && Targets(sent) == if Known(s, p) then [p] else []
  {
    var (s', sent) := Serve(s, p, key, time);
    assert Addrs(s'.masters) == Addrs(s.masters);
    assert Known(s, p) ==> Targets(sent) == [p];
  }

  lemma ServeSpec(s: State, p: Pending, key: u32, time: nat, log: seq<Query>)
    requires Distinct(s.(pending := s.pending + [p])) && InStep(s.(pending := s.pending + [p]), log)
    ensures var (s', sent) := Serve(s, p, key, time);
            && s' == s.(masters := s'.masters, connections := s'.connections)
            && Addrs(s'.masters) == Addrs(s.masters) && InStep(s', log + sent)
  {
    ServeTargets(s, p, key, time);
    var (s', sent) := Serve(s, p, key, time);
    if p.PendingMaster? {
      var i := IndexOf(Addrs(s.masters), p.addr);
      if i < |s.masters| {
        ServedMasterInStep(s, i, key, log);
      } else {
        assert forall j | 0 <= j < |s.masters| :: Addrs(s.masters)[j] == s.masters[j].addr;
        assert log + [] == log;
      }
    } else {
      OnlyServersAsked(s, log, sent);
    }
  }

  lemma ServedMasterInStep(s: State, i: nat, key: u32, log: seq<Query>)
    requires i < |s.masters| && NoDups(Addrs(s.masters))
    requires InStep(s.(pending := s.pending + [PendingMaster(s.masters[i].addr)]), log)
    ensures var m := Master(s.masters[i].addr, key);
            InStep(s.(masters := s.masters[i := m]), log + [QueryMaster(m.addr, key)])
  {
    var m := Master(s.masters[i].addr, key);
    var masters := s.masters[i := m];
    forall j | 0 <= j < |masters|
      ensures PendingMaster(masters[j].addr) in s.pending
           || LastKey(log + [QueryMaster(m.addr, key)], masters[j].addr) == Some(masters[j].key)
    {
      LastKeySnoc(log, QueryMaster(m.addr, key), masters[j].addr);
      if j != i {
        assert Addrs(s.masters)[j] != Addrs(s.masters)[i];
        assert masters[j] in s.masters;
      }
    }
  }

  /** Everything pending is asked once if it is still known, and nothing else is. */
  lemma {:induction false} ProcessPendingTargets(s: State, r: Round)
    requires NoDups(s.pending)
    ensures var ts := Targets(ProcessPending(s, r).1);
            NoDups(ts) && forall t :: t in ts <==> t in s.pending && Known(s, t)
    decreases |s.pending|
  {
    if s.pending != [] {
      var p, n := Last(s.pending), |s.pending| - 1;
      var s0 := s.(pending := Front(s.pending));
      assert forall t :: t in s.pending <==> t in Front(s.pending) || t == p;
      NoDupsFront(s.pending);
      ServeTargets(s0, p, KeyAt(r.pendingKeys, n), At(r.pendingClock, n));
      var (s1, first) := Serve(s0, p, KeyAt(r.pendingKeys, n), At(r.pendingClock, n));
      ProcessPendingTargets(s1, r);
      var rest := ProcessPending(s1, r).1;
      TargetsConcat(first, rest);
      NoDupsConcat(Targets(first), Targets(rest));
    }
  }

  /** Then no master is out of step. */
  lemma {:induction false} ProcessPendingSpec(s: State, r: Round, log: seq<Query>)
    requires Distinct(s) && InStep(s, log)
    ensures var (s', sent) := ProcessPending(s, r);
            && s'.pending == [] && s'.delayed == s.delayed && Distinct(s') && InStep(s', log + sent)
            && Addrs(s'.masters) == Addrs(s.masters)
    decreases |s.pending|
  {
    if s.pending == [] {
      assert log + [] == log;
    } else {
      var p, n := Last(s.pending), |s.pending| - 1;
      var s0 := s.(pending := Front(s.pending));
      assert Front(s.pending) + [p] == s.pending;
      NoDupsFront(s.pending);
      ServeSpec(s0, p, KeyAt(r.pendingKeys, n), At(r.pendingClock, n), log);
      var (s1, first) := Serve(s0, p, KeyAt(r.pendingKeys, n), At(r.pendingClock, n));
      ProcessPendingSpec(s1, r, log + first);
      Assoc(log, first, ProcessPending(s1, r).1);
    }
  }

  // One iteration

  /** Exactly these are asked, once each: a master that is pending, or any other master when the task is due; a
      server that is pending, unless the cleanup of this iteration dropped it, or any other valid server when
      the task is due. */
  ghost predicate AskedExactly(s: State, r: Round, asked: seq<Pending>) {
    && NoDups(asked)
    && forall t :: t in asked <==>
         match t
         case PendingMaster(addr) => addr in Addrs(s.masters) && (t in s.pending || MastersDue(s, r))
         case PendingServer(addr) =>
           || (t in s.pending && addr in ProcessTasks(s, r).0.connections)
           || (InfoDue(s, r) && Askable(s, addr, r.infoNow))
  }

  lemma QueriesSpec(s: State, r: Round, log: seq<Query>)
    requires Inv(s) && InStep(s, log) && WellFormed(s, r)
    ensures var (s', sent) := Queries(s, r);
            && s'.pending == [] && Distinct(s') && InStep(s', log + sent) && AskedExactly(s, r, Targets(sent))
            && s'.delayed == ProcessTasks(s, r).0.delayed && Addrs(s'.masters) == Addrs(s.masters)
  {
    ProcessTasksSpec(s, r, log);
    var (s1, a) := ProcessTasks(s, r);
    ProcessPendingSpec(s1, r, log + a);
    ProcessPendingTargets(s1, r);
    var b := ProcessPending(s1, r).1;
    TargetsConcat(a, b);
    NoDupsConcat(Targets(a), Targets(b));
    Assoc(log, a, b);
  }

  // Delayed events

  /** One pass over the tasks queues at most one event for an address: a removal for exactly the connections
      that it drops, and a timeout for exactly the servers that it asks again although they still owe a reply. */
  ghost predicate DelayedGood(s: State, r: Round) {
    var s' := ProcessTasks(s, r).0;
    && (forall i, j | 0 <= i < j < |s'.delayed| :: s'.delayed[i].addr != s'.delayed[j].addr)
    && (forall a :: ServerRemove(a) in s'.delayed <==> a in s.connections && a !in s'.connections)
    && (forall a :: ServerTimeout(a) in s'.delayed <==>
          InfoDue(s, r) && Askable(s, a, r.infoNow) && s.connections[a].phase != Idle)
  }

  lemma InfoPhaseDelays(s: State, r: Round)
    requires s.delayed == [] && WellFormed(s, r)
    ensures var s' := InfoPhase(s, r).0;
            && SameServers(s, s') && s'.cleanupTask == s.cleanupTask
            && s'.delayed == if InfoDue(s, r) then Timeouts(s, r.infoNow, r.infoOrder) else []
  {
    var s0 := s.(infoTask := UpdateTime(s.infoTask, r.now).0);
    if InfoDue(s, r) {
      AskAllKeeps(s0, r.infoNow, r.infoOrder, r.taskClock);
      AskAllDelays(s0, r.infoNow, r.infoOrder, r.taskClock);
      AskAllTasks(s0, r.infoNow, r.infoOrder, r.taskClock);
      SameTimeouts(s0, s, r.infoNow, r.infoOrder);
    }
  }

  lemma {:induction false} AskAllTasks(s: State, now: nat, order: seq<Addr>, clock: seq<nat>)
    ensures AskAll(s, now, order, clock).0.cleanupTask == s.cleanupTask
    decreases |order|
  {
    if order != [] {
      AskAllTasks(s, now, Front(order), clock);
    }
  }

  lemma {:induction false} SameTimeouts(s: State, t: State, now: nat, order: seq<Addr>)
    requires s.connections == t.connections && s.pending == t.pending
    ensures Timeouts(s, now, order) == Timeouts(t, now, order)
    decreases |order|
  {
    if order != [] {
      SameTimeouts(s, t, now, Front(order));
    }
  }

  /** The cleanup time is read first, so a server valid when it was asked is not removed by the same pass. */
  lemma AskedIsKept(s: State, s': State, r: Round, a: Addr)
    requires SameServers(s, s') && r.now <= r.infoNow && Askable(s, a, r.infoNow)
    ensures IsValid(s'.connections[a], r.now)
  {
  }

  lemma CleanupDelays(s: State, r: Round)
    requires NoDups(r.cleanupOrder) && (forall a :: a in r.cleanupOrder <==> a in s.connections)
    ensures var s' := CleanupPhase(s, r);
            var removals := if CleanupDue(s, r) then Removals(s.connections, r.now, r.cleanupOrder) else [];
            && s'.delayed == s.delayed + removals
            && (forall i, j | 0 <= i < j < |removals| :: removals[i].addr != removals[j].addr)
            && (forall d :: d in removals <==> d.ServerRemove? && d.addr in s.connections && d.addr !in s'.connections)
            && (forall d | d in removals :: !IsValid(s.connections[d.addr], r.now))
  {
    RemovalsSpec(s.connections, r.now, r.cleanupOrder);
    if !CleanupDue(s, r) {
      assert s.delayed + [] == s.delayed;
    }
  }

  /** The events of the info phase, in terms of the state that the pass started with. */
  lemma InfoPhaseEvents(s: State, r: Round)
    requires s.delayed == [] && WellFormed(s, r)
    ensures var s' := InfoPhase(MastersPhase(s, r).0, r).0;
            && SameServers(s, s'.(masters := s.masters))
            && (forall i, j | 0 <= i < j < |s'.delayed| :: s'.delayed[i].addr != s'.delayed[j].addr)
            && (forall d :: d in s'.delayed <==>
                  d.ServerTimeout? && InfoDue(s, r) && Askable(s, d.addr, r.infoNow) && s.connections[d.addr].phase != Idle)
  {
    var s1 := MastersPhase(s, r).0;
    InfoPhaseDelays(s1, r);
    SameTimeouts(s, s1, r.infoNow, r.infoOrder);
    TimeoutsSpec(s, r.infoNow, r.infoOrder);
  }

  lemma ProcessTasksDelays(s: State, r: Round)
    requires s.delayed == [] && WellFormed(s, r)
    ensures DelayedGood(s, r)
  {
    InfoPhaseEvents(s, r);
    var s2 := InfoPhase(MastersPhase(s, r).0, r).0;
    CombineDelays(s, s2, r);
  }

  lemma CombineDelays(s: State, s2: State, r: Round)
    requires WellFormed(s, r) && SameServers(s, s2.(masters := s.masters))
    requires forall i, j | 0 <= i < j < |s2.delayed| :: s2.delayed[i].addr != s2.delayed[j].addr
    requires forall d :: d in s2.delayed <==>
               d.ServerTimeout? && InfoDue(s, r) && Askable(s, d.addr, r.infoNow) && s.connections[d.addr].phase != Idle
    ensures var s' := CleanupPhase(s2, r);
            && (forall i, j | 0 <= i < j < |s'.delayed| :: s'.delayed[i].addr != s'.delayed[j].addr)
            && (forall a :: ServerRemove(a) in s'.delayed <==> a in s.connections && a !in s'.connections)
            && (forall a :: ServerTimeout(a) in s'.delayed <==>
                  InfoDue(s, r) && Askable(s, a, r.infoNow) && s.connections[a].phase != Idle)
  {
    CleanupDelays(s2, r);
    var timeouts := s2.delayed;
    var removals := if CleanupDue(s2, r) then Removals(s2.connections, r.now, r.cleanupOrder) else [];
    forall d | d in timeouts
      ensures ServerRemove(d.addr) !in removals
    {
      AskedIsKept(s, s2.(masters := s.masters), r, d.addr);
    }
    DistinctAddrs(timeouts, removals);
  }

  lemma DistinctAddrs(timeouts: seq<Delayed>, removals: seq<Delayed>)
    requires forall i, j | 0 <= i < j < |timeouts| :: timeouts[i].addr != timeouts[j].addr
    requires forall i, j | 0 <= i < j < |removals| :: removals[i].addr != removals[j].addr
    requires forall d | d in timeouts :: d.ServerTimeout? && ServerRemove(d.addr) !in removals
    requires forall d | d in removals :: d.ServerRemove?
    ensures var ds := timeouts + removals; forall i, j | 0 <= i < j < |ds| :: ds[i].addr != ds[j].addr
  {
    var ds := timeouts + removals;
    forall i, j | 0 <= i < j < |ds|
      ensures ds[i].addr != ds[j].addr
    {
      if i < |timeouts| <= j {
        assert timeouts[i] in timeouts && removals[j - |timeouts|] in removals;
        assert removals[j - |timeouts|] == ServerRemove(ds[j].addr);
      }
    }
  }

  // Packets

  /** Packets change connections only, and a list of servers counts only with the key of its master. */
  lemma HandlePacketSpec(s: State, d: Datagram)
    ensures var (s', event) := HandlePacket(s, d);
            && s' == s.(connections := s'.connections)
            && (event.Some? && event.value.ServerList? ==> Master(event.value.master, event.value.key) in s.masters)
  {
    var i := IndexOf(Addrs(s.masters), d.from);
    if i < |s.masters| {
      assert s.masters[i] in s.masters;
    }
  }

  lemma {:induction false} ReceiveAllSpec(s: State, packets: seq<Datagram>)
    ensures var (s', event) := ReceiveAll(s, packets);
            && s' == s.(connections := s'.connections)
            && (event.Some? && event.value.ServerList? ==> Master(event.value.master, event.value.key) in s.masters)
    decreases |packets|
  {
    if packets != [] {
      HandlePacketSpec(s, packets[0]);
      ReceiveAllSpec(HandlePacket(s, packets[0]).0, packets[1..]);
    }
  }

  /** Packets behind the first event are left for the next wait. */
  lemma {:induction false} ReceiveAllConcat(s: State, a: seq<Datagram>, b: seq<Datagram>)
    ensures ReceiveAll(s, a + b) == if ReceiveAll(s, a).1.Some? then ReceiveAll(s, a) else ReceiveAll(ReceiveAll(s, a).0, b)
    decreases |a|
  {
    if a == [] {
      assert a + b == b;
    } else {
      assert (a + b)[0] == a[0] && (a + b)[1..] == a[1..] + b;
      ReceiveAllConcat(HandlePacket(s, a[0]).0, a[1..], b);
    }
  }

  /** Packet `i` is a list of servers from a master, and no packet in front of it is an event. */
  predicate ListIsNext(s: State, packets: seq<Datagram>, i: nat) {
    && i < |packets| && packets[i].from in Addrs(s.masters) && packets[i].payload.ListPayload?
    && ReceiveAll(s, packets[..i]).1.None?
  }

  /** Such a list is an event if it carries the key that its master was last asked with. With any other key or none it
      is as if it had never been received. */
  predicate NeedsTheKey(s: State, log: seq<Query>, packets: seq<Datagram>, i: nat)
    requires i < |packets| && packets[i].payload.ListPayload?
  {
    var key := LastKey(log, packets[i].from);
    if packets[i].payload.key == key then
      key.Some? && ReceiveAll(s, packets) == (ReceiveAll(s, packets[..i]).0, Some(ServerList(packets[i].from, key.value)))
    else
      ReceiveAll(s, packets) == ReceiveAll(s, packets[..i] + packets[i + 1..])
  }

  ghost predicate ListsNeedTheKey(s: State, log: seq<Query>, packets: seq<Datagram>) {
    forall i | 0 <= i < |packets| && ListIsNext(s, packets, i) :: NeedsTheKey(s, log, packets, i)
  }

  lemma MasterListHandled(s: State, log: seq<Query>, d: Datagram)
    requires d.from in Addrs(s.masters) && d.payload.ListPayload?
    requires forall m | m in s.masters :: LastKey(log, m.addr) == Some(m.key)
    ensures LastKey(log, d.from).Some?
    ensures HandlePacket(s, d) == (s, if d.payload.key == LastKey(log, d.from)
                                     then Some(ServerList(d.from, LastKey(log, d.from).value)) else None)
  {
    var i := IndexOf(Addrs(s.masters), d.from);
    assert s.masters[i] in s.masters;
  }

  lemma NextListNeedsTheKey(s: State, log: seq<Query>, packets: seq<Datagram>, i: nat)
    requires (forall m | m in s.masters :: LastKey(log, m.addr) == Some(m.key)) && ListIsNext(s, packets, i)
    ensures NeedsTheKey(s, log, packets, i)
  {
    ReceiveAllSpec(s, packets[..i]);
    MasterListHandled(ReceiveAll(s, packets[..i]).0, log, packets[i]);
    assert packets == packets[..i] + packets[i..] && packets[i..][1..] == packets[i + 1..];
    ReceiveAllConcat(s, packets[..i], packets[i..]);
    ReceiveAllConcat(s, packets[..i], packets[i + 1..]);
  }

  /** An event that is a list comes from a packet that carries the key. */
  ghost predicate ListWasReceived(log: seq<Query>, packets: seq<Datagram>, event: Option<Event>) {
    event.Some? && event.value.ServerList? ==>
      && LastKey(log, event.value.master) == Some(event.value.key)
      && exists d :: d in packets && d.from == event.value.master && d.payload == ListPayload(Some(event.value.key))
  }

  lemma {:induction false} ListsAreReceived(s: State, log: seq<Query>, packets: seq<Datagram>)
    requires forall m | m in s.masters :: LastKey(log, m.addr) == Some(m.key)
    ensures ListWasReceived(log, packets, ReceiveAll(s, packets).1)
    decreases |packets|
  {
    if packets != [] {
      var d := packets[0];
      HandlePacketSpec(s, d);
      if d.from in Addrs(s.masters) && d.payload.ListPayload? {
        MasterListHandled(s, log, d);
      }
      ListsAreReceived(HandlePacket(s, d).0, log, packets[1..]);
      assert forall x | x in packets[1..] :: x in packets;
    }
  }

  // Whole runs

  /** How an iteration ends once everything is sent: with the newest of the delayed events, which is taken off, or with
      the first event that the packets make. */
  ghost predicate EndsRightly(mid: State, log: seq<Query>, packets: seq<Datagram>, s': State, event: Option<Event>) {
    if mid.delayed != [] then
      event.Some? && event.value.DelayedEvent? && mid.delayed == s'.delayed + [event.value.event]
      && s' == mid.(delayed := s'.delayed)
    else
      (s', event) == ReceiveAll(mid, packets) && ListWasReceived(log, packets, event) && ListsNeedTheKey(mid, log, packets)
  }

  /** What is promised of one iteration. */
  ghost predicate Good(rec: Record) {
    var (mid, sent) := Queries(rec.before, rec.round);
    var (s', event) := Iterate(rec.before, rec.round);
    && Inv(rec.before) && rec.before.delayed == []
    && AskedExactly(rec.before, rec.round, Targets(sent))
    && mid.pending == [] && (forall m | m in mid.masters :: LastKey(rec.log, m.addr) == Some(m.key))
    && Addrs(mid.masters) == Addrs(rec.before.masters)
    && DelayedGood(rec.before, rec.round) && mid.delayed == ProcessTasks(rec.before, rec.round).0.delayed
    && EndsRightly(mid, rec.log, rec.round.packets, s', event)
  }

  lemma IterationEndsRightly(mid: State, log: seq<Query>, s: State, r: Round)
    requires mid == Queries(s, r).0 && forall m | m in mid.masters :: LastKey(log, m.addr) == Some(m.key)
    ensures EndsRightly(mid, log, r.packets, Iterate(s, r).0, Iterate(s, r).1)
  {
    ListsAreReceived(mid, log, r.packets);
    forall i | 0 <= i < |r.packets| && ListIsNext(mid, r.packets, i)
      ensures NeedsTheKey(mid, log, r.packets, i)
    {
      NextListNeedsTheKey(mid, log, r.packets, i);
    }
  }

  lemma IterationIsGood(s: State, r: Round, log: seq<Query>)
    requires Inv(s) && InStep(s, log) && s.delayed == [] && WellFormed(s, r)
    ensures var log' := log + Queries(s, r).1;
            var (s', event) := Iterate(s, r);
            Good(Record(s, r, log')) && Inv(s') && InStep(s', log') && (event.None? ==> s'.delayed == [])
  {
    QueriesSpec(s, r, log);
    ProcessTasksDelays(s, r);
    IterationEndsRightly(Queries(s, r).0, log + Queries(s, r).1, s, r);
    ReceiveAllSpec(Queries(s, r).0, r.packets);
  }

  lemma {:induction false} LoopIsGood(s: State, deadline: Option<nat>, rounds: seq<Round>, log: seq<Query>)
    requires Inv(s) && InStep(s, log) && s.delayed == []
    requires forall rec | rec in Loop(s, deadline, rounds, log).records :: WellFormed(rec.before, rec.round)
    ensures var t := Loop(s, deadline, rounds, log);
            Inv(t.state) && InStep(t.state, t.log) && forall rec | rec in t.records :: Good(rec)
    decreases |rounds|
  {
    if rounds != [] && !(deadline.Some? && deadline.value <= rounds[0].now) {
      var r := rounds[0];
      var log' := log + Queries(s, r).1;
      var (s', event) := Iterate(s, r);
      var rec := Record(s, r, log');
      assert Loop(s, deadline, rounds, log).records[0] == rec;
      IterationIsGood(s, r, log);
      if event.None? {
        var t := Loop(s', deadline, rounds[1..], log');
        assert Loop(s, deadline, rounds, log).records == [rec] + t.records;
        LoopIsGood(s', deadline, rounds[1..], log');
      }
    }
  }

  lemma CallIsGood(s: State, call: Call, log: seq<Query>)
    requires Inv(s) && InStep(s, log)
    requires forall rec | rec in Do(s, call, log).records :: WellFormed(rec.before, rec.round)
    ensures var t := Do(s, call, log);
            Inv(t.state) && InStep(t.state, t.log) && forall rec | rec in t.records :: Good(rec)
  {
    match call
    case CallInsertMaster(m) => InsertMasterKeepsInv(s, m, log);
    case CallRemoveMaster(addr) => RemoveMasterKeepsInv(s, addr, log);
    case CallInsertServer(addr, players, now) => InsertServerKeepsInv(s, addr, players, now, log);
    case CallRemoveServer(addr) => RemoveServerKeepsInv(s, addr, log);
    case CallWait(deadline, rounds) => if s.delayed == [] { LoopIsGood(s, deadline, rounds, log); }
  }

  /** Main result: whatever the user does and whatever arrives, at the head of every iteration the pending
      entries are distinct and known and no delayed event is left; the iteration asks exactly whom it should, once
      each; when packets are read nothing is pending and every master remembers the key it was last asked
      with; a list of servers is an event exactly when it carries that key. */
  lemma {:induction false} EveryIterationIsGood(s: State, calls: seq<Call>, log: seq<Query>)
    requires Inv(s) && InStep(s, log)
    requires forall rec | rec in RunCalls(s, calls, log).records :: WellFormed(rec.before, rec.round)
    ensures var t := RunCalls(s, calls, log);
            Inv(t.state) && InStep(t.state, t.log) && forall rec | rec in t.records :: Good(rec)
    decreases |calls|
  {
    if calls != [] {
      var t := Do(s, calls[0], log);
      var u := RunCalls(t.state, calls[1..], t.log);
      assert RunCalls(s, calls, log).records == t.records + u.records;
      CallIsGood(s, calls[0], log);
      EveryIterationIsGood(t.state, calls[1..], t.log);
    }
  }

  lemma EveryRunIsGood(now: nat, calls: seq<Call>)
    requires forall rec | rec in RunCalls(Init(now), calls, []).records :: WellFormed(rec.before, rec.round)
    ensures var t := RunCalls(Init(now), calls, []);
            Inv(t.state) && InStep(t.state, t.log) && forall rec | rec in t.records :: Good(rec)
  {
    EveryIterationIsGood(Init(now), calls, []);
  }

  // Where server events come from

  /** All connections were made with the same wish for players, and none waits for players without it. */
  predicate Wishes(s: State, players: bool) {
    forall a | a in s.connections :: s.connections[a].players == players && (s.connections[a].waitPlayers ==> players)
  }

  predicate Justified(s: State, players: bool, event: Option<Event>) {
    event.Some? && event.value.ServerEvent? ==>
      event.value.server in s.connections && (event.value.notice == PlayersNotice ==> players)
  }

  /** Waiting drops connections but never makes one; a server event is about a connection that there was, and
      players come only to those who wished for them. */
  predicate OnlyShrinks(s: State, s': State, players: bool, event: Option<Event>) {
    Wishes(s', players) && s'.connections.Keys <= s.connections.Keys && Justified(s, players, event)
  }

  lemma HandlePacketShrinks(s: State, d: Datagram, players: bool)
    requires Wishes(s, players)
    ensures OnlyShrinks(s, HandlePacket(s, d).0, players, HandlePacket(s, d).1)
  {
  }

  lemma {:induction false} ReceiveAllShrinks(s: State, packets: seq<Datagram>, players: bool)
    requires Wishes(s, players)
    ensures OnlyShrinks(s, ReceiveAll(s, packets).0, players, ReceiveAll(s, packets).1)
    decreases |packets|
  {
    if packets != [] {
      HandlePacketShrinks(s, packets[0], players);
      ReceiveAllShrinks(HandlePacket(s, packets[0]).0, packets[1..], players);
    }
  }

  lemma {:induction false} ProcessPendingKeepsKeys(s: State, r: Round, players: bool)
    requires Wishes(s, players)
    ensures var s' := ProcessPending(s, r).0; s'.connections.Keys == s.connections.Keys && Wishes(s', players)
    decreases |s.pending|
  {
    if s.pending != [] {
      var n := |s.pending| - 1;
      var s0 := s.(pending := Front(s.pending));
      ServeTargets(s0, Last(s.pending), KeyAt(r.pendingKeys, n), At(r.pendingClock, n));
      ProcessPendingKeepsKeys(Serve(s0, Last(s.pending), KeyAt(r.pendingKeys, n), At(r.pendingClock, n)).0, r, players);
    }
  }

  lemma {:induction false} AskAllWishes(s: State, now: nat, order: seq<Addr>, clock: seq<nat>, players: bool)
    requires Wishes(s, players)
    ensures Wishes(AskAll(s, now, order, clock).0, players)
    decreases |order|
  {
    if order != [] {
      AskAllWishes(s, now, Front(order), clock, players);
    }
  }

  lemma ProcessTasksShrinks(s: State, r: Round, players: bool)
    requires Wishes(s, players)
    ensures var s' := ProcessTasks(s, r).0; s'.connections.Keys <= s.connections.Keys && Wishes(s', players)
  {
    var s1 := MastersPhase(s, r).0;
    var s2 := s1.(infoTask := UpdateTime(s1.infoTask, r.now).0);
    AskAllKeeps(s2, r.infoNow, r.infoOrder, r.taskClock);
    AskAllWishes(s2, r.infoNow, r.infoOrder, r.taskClock, players);
  }

  lemma IterateShrinks(s: State, r: Round, players: bool)
    requires Wishes(s, players)
    ensures OnlyShrinks(s, Iterate(s, r).0, players, Iterate(s, r).1)
  {
    ProcessTasksShrinks(s, r, players);
    ProcessPendingKeepsKeys(ProcessTasks(s, r).0, r, players);
    ReceiveAllShrinks(Queries(s, r).0, r.packets, players);
  }

  lemma {:induction false} LoopShrinks(
      s: State, deadline: Option<nat>, rounds: seq<Round>, log: seq<Query>, players: bool)
    requires Wishes(s, players)
    ensures OnlyShrinks(s, Loop(s, deadline, rounds, log).state, players, Loop(s, deadline, rounds, log).event)
    decreases |rounds|
  {
    if rounds != [] {
      IterateShrinks(s, rounds[0], players);
      LoopShrinks(Iterate(s, rounds[0]).0, deadline, rounds[1..], log + Queries(s, rounds[0]).1, players);
    }
  }

  lemma WaitShrinks(s: State, deadline: Option<nat>, rounds: seq<Round>, log: seq<Query>, players: bool)
    requires Wishes(s, players)
    ensures OnlyShrinks(s, WaitEvent(s, deadline, rounds, log).state, players, WaitEvent(s, deadline, rounds, log).event)
  {
    LoopShrinks(s, deadline, rounds, log, players);
  }

  // Tasks

  /** How often a task is due over successive clock readings, and the task at the end. */
  function Firings(t: Task, times: seq<nat>): (Task, nat)
    decreases |times|
  {
    if times == [] then (t, 0) else
    var (t', due) := UpdateTime(t, times[0]);
    var (t'', n) := Firings(t', times[1..]);
    (t'', n + if due then 1 else 0)
  }

  lemma {:induction false} FiringsPush(t: Task, times: seq<nat>)
    ensures var (t', n) := Firings(t, times); t'.interval == t.interval && t.time + n * t.interval <= t'.time
    decreases |times|
  {
    if times != [] {
      var (t', due) := UpdateTime(t, times[0]);
      FiringsPush(t', times[1..]);
    }
  }

  lemma {:induction false} FiringsEnd(t: Task, times: seq<nat>, end: nat)
    requires forall x | x in times :: x <= end
    ensures var (t', n) := Firings(t, times); n > 0 ==> t'.time <= end + t.interval
    decreases |times|
  {
    if times != [] {
      assert times[0] in times && forall x | x in times[1..] :: x in times;
      FiringsEnd(UpdateTime(t, times[0]).0, times[1..], end);
      FiringsLast(UpdateTime(t, times[0]).0, times[1..]);
    }
  }

  lemma {:induction false} FiringsLast(t: Task, times: seq<nat>)
    ensures Firings(t, times).1 == 0 ==> Firings(t, times).0 == t
    decreases |times|
  {
    if times != [] {
      FiringsLast(UpdateTime(t, times[0]).0, times[1..]);
    }
  }

  /** A task never runs more often than its interval allows, and never catches up on missed times; after a
      check it is not due before the next clock reading. */
  lemma TaskIsPaced(t: Task, times: seq<nat>, end: nat)
    requires t.interval > 0 && forall x | x in times :: x <= end
    ensures var n := Firings(t, times).1; n > 0 ==> (n - 1) * t.interval + t.time <= end
    ensures UpdateTime(t, end).0.time > end
  {
    FiringsPush(t, times);
    FiringsEnd(t, times, end);
    var n := Firings(t, times).1;
    assert (n - 1) * t.interval == n * t.interval - t.interval;
  }
}
