/** The observer's event loop over master and game servers (crates/xash3d-observer/src/observer.rs). Sends
    succeed; clock readings, generated keys, received packets and the iteration order of the hash table are
    inputs. */
module Observers {
  import opened Prelude
  import opened Types
  import opened Connections

  const MASTER_INTERVAL := 8_000
  const SERVER_INTERVAL := 2_000
  const SERVER_CLEAN_INTERVAL := 16_000

  datatype Master = Master(addr: Addr, key: u32)

  datatype Pending = PendingMaster(addr: Addr) | PendingServer(addr: Addr)

  datatype Delayed = ServerTimeout(addr: Addr) | ServerRemove(addr: Addr)

  datatype Task = Task(time: nat, interval: nat)

  datatype State = State(
    masters: seq<Master>, pending: seq<Pending>, connections: map<Addr, Conn>, delayed: seq<Delayed>,
    serversTask: Task, infoTask: Task, cleanupTask: Task)

  /** A query on the wire: to a master with a key, or to a game server. */
  datatype Query = QueryMaster(addr: Addr, key: u32) | QueryServer(addr: Addr)

  /** A received packet: a list of servers with or without a key, or what a game server replies. */
  datatype Payload = ListPayload(key: Option<u32>) | ReplyPayload(reply: Reply)

  datatype Datagram = Datagram(from: Addr, payload: Payload, now: nat)

  datatype Event =
    | Timeout | DelayedEvent(event: Delayed) | ServerList(master: Addr, key: u32) | MasterServerInfo(master: Addr)
    | MasterInvalidPacket(master: Addr) | ServerEvent(server: Addr, notice: Notice)

  /** The inputs of one iteration of the loop: the clock at its start, the clock when servers are asked, the
      orders in which the table is iterated over, keys and clock readings for the queries, and the packets that
      arrive before the iteration ends. */
  datatype Round = Round(
    now: nat, infoNow: nat, infoOrder: seq<Addr>, cleanupOrder: seq<Addr>,
    taskKeys: seq<u32>, pendingKeys: seq<u32>, taskClock: seq<nat>, pendingClock: seq<nat>, packets: seq<Datagram>)

  function Init(now: nat): State {
    State([], [], map[], [], Task(now, MASTER_INTERVAL), Task(now, SERVER_INTERVAL), Task(now, SERVER_CLEAN_INTERVAL))
  }

  function At(xs: seq<nat>, i: nat): nat {
    if i < |xs| then xs[i] else 0
  }

  function KeyAt(keys: seq<u32>, i: nat): u32 {
    if i < |keys| then keys[i] else 0
  }

  // What the user does between events

  /** The first position of an element, or the length. */
  function IndexOf<T(==)>(xs: seq<T>, x: T): (i: nat)
    ensures i <= |xs| && (i < |xs| ==> xs[i] == x) && (i == |xs| <==> x !in xs)
  {
    if xs == [] || xs[0] == x then 0 else 1 + IndexOf(xs[1..], x)
  }

  function Addrs(masters: seq<Master>): (addrs: seq<Addr>)
    ensures |addrs| == |masters| && forall i | 0 <= i < |masters| :: addrs[i] == masters[i].addr
  {
    seq(|masters|, i requires 0 <= i < |masters| => masters[i].addr)
  }

  /** The last element takes the place of the removed one. */
  function SwapRemove<T>(xs: seq<T>, i: nat): seq<T>
    requires i < |xs|
  {
    Front(xs[i := Last(xs)])
  }

  function RemovePending(s: State, p: Pending): State {
    var i := IndexOf(s.pending, p);
    if i < |s.pending| then s.(pending := SwapRemove(s.pending, i)) else s
  }

  function InsertMaster(s: State, m: Master): State {
    if m.addr in Addrs(s.masters) then s
    else s.(pending := s.pending + [PendingMaster(m.addr)], masters := s.masters + [m])
  }

  function RemoveMaster(s: State, addr: Addr): State {
    var s := RemovePending(s, PendingMaster(addr));
    var i := IndexOf(Addrs(s.masters), addr);
    if i < |s.masters| then s.(masters := SwapRemove(s.masters, i)) else s
  }

  function InsertServer(s: State, addr: Addr, players: bool, now: nat): State {
    if addr in s.connections then s
    else s.(pending := s.pending + [PendingServer(addr)], connections := s.connections[addr := NewConn(players, now)])
  }

  function RemoveServer(s: State, addr: Addr): State {
    var s := RemovePending(s, PendingServer(addr));
    s.(connections := s.connections - {addr})
  }

  // One iteration of the loop

  /** The task after a check, and whether it is due. A task that is late by more than its interval skips the
      missed times. */
  function UpdateTime(t: Task, now: nat): (Task, bool) {
    if t.time > now then (t, false)
    else if t.time + t.interval <= now then (t.(time := now + t.interval), true)
    else (t.(time := t.time + t.interval), true)
  }

  /** Every master gets a fresh key, even those that are pending and not asked here. */
  function Rekeyed(masters: seq<Master>, keys: seq<u32>): (r: seq<Master>)
    ensures |r| == |masters|
    ensures forall i | 0 <= i < |masters| :: r[i] == Master(masters[i].addr, KeyAt(keys, i))
  {
    seq(|masters|, i requires 0 <= i < |masters| => Master(masters[i].addr, KeyAt(keys, i)))
  }

  /** The queries to those masters that are not pending. */
  function MasterQueries(masters: seq<Master>, pending: seq<Pending>): seq<Query> {
    if masters == [] then [] else
    var m := Last(masters);
    MasterQueries(Front(masters), pending) +
    if PendingMaster(m.addr) in pending then [] else [QueryMaster(m.addr, m.key)]
  }

  function QueryServersFromMasters(s: State, keys: seq<u32>): (State, seq<Query>) {
    var masters := Rekeyed(s.masters, keys);
    (s.(masters := masters), MasterQueries(masters, s.pending))
  }

  /** A server is asked when its connection is valid and it is not pending. */
  predicate Askable(s: State, addr: Addr, now: nat) {
    addr in s.connections && IsValid(s.connections[addr], now) && PendingServer(addr) !in s.pending
  }

  /** Asks the servers of `order`, in that order. */
  function AskAll(s: State, now: nat, order: seq<Addr>, clock: seq<nat>): (State, seq<Query>) {
    if order == [] then (s, []) else
    var (s, sent) := AskAll(s, now, Front(order), clock);
    var addr := Last(order);
    if !Askable(s, addr, now) then (s, sent)
    else (AskOne(s, addr, At(clock, |order| - 1)), sent + [QueryServer(addr)])
  }

  /** A server that still owes a reply gets a timeout event. */
  function AskOne(s: State, addr: Addr, time: nat): State
    requires addr in s.connections
  {
    var c := s.connections[addr];
    s.(connections := s.connections[addr := Connections.Query(c, time).0],
       delayed := s.delayed + if c.phase != Idle then [ServerTimeout(addr)] else [])
  }

  /** The connections of `order` that are no longer valid. */
  function Removals(conns: map<Addr, Conn>, now: nat, order: seq<Addr>): seq<Delayed> {
    if order == [] then [] else
    var addr := Last(order);
    Removals(conns, now, Front(order)) +
    if addr in conns && !IsValid(conns[addr], now) then [ServerRemove(addr)] else []
  }

  /** The connections that are left once `order` was gone through; the table's own order leaves out none. */
  function Kept(conns: map<Addr, Conn>, now: nat, order: seq<Addr>): map<Addr, Conn> {
    map addr | addr in conns && (addr in order ==> IsValid(conns[addr], now)) :: conns[addr]
  }

  function CleanupServers(s: State, now: nat, order: seq<Addr>): State {
    s.(connections := Kept(s.connections, now, order), delayed := s.delayed + Removals(s.connections, now, order))
  }

  function MastersPhase(s: State, r: Round): (State, seq<Query>) {
    var (task, due) := UpdateTime(s.serversTask, r.now);
    var s := s.(serversTask := task);
    if due then QueryServersFromMasters(s, r.taskKeys) else (s, [])
  }

  function InfoPhase(s: State, r: Round): (State, seq<Query>) {
    var (task, due) := UpdateTime(s.infoTask, r.now);
    var s := s.(infoTask := task);
    if due then AskAll(s, r.infoNow, r.infoOrder, r.taskClock) else (s, [])
  }

  function CleanupPhase(s: State, r: Round): State {
    var (task, due) := UpdateTime(s.cleanupTask, r.now);
    var s := s.(cleanupTask := task);
    if due then CleanupServers(s, r.now, r.cleanupOrder) else s
  }

  function ProcessTasks(s: State, r: Round): (State, seq<Query>) {
    var (s, toMasters) := MastersPhase(s, r);
    var (s, toServers) := InfoPhase(s, r);
    (CleanupPhase(s, r), toMasters + toServers)
  }

  /** What is done about one pending entry: one whose connection is gone is dropped. */
  function Serve(s: State, p: Pending, key: u32, time: nat): (State, seq<Query>) {
    match p
    case PendingMaster(addr) =>
      var i := IndexOf(Addrs(s.masters), addr);
      if i == |s.masters| then (s, [])
      else (s.(masters := s.masters[i := Master(addr, key)]), [QueryMaster(addr, key)])
    case PendingServer(addr) =>
      if addr !in s.connections then (s, [])
      else (s.(connections := s.connections[addr := Connections.Query(s.connections[addr], time).0]), [QueryServer(addr)])
  }

  function ProcessPending(s: State, r: Round): (State, seq<Query>)
    decreases |s.pending|
  {
    if s.pending == [] then (s, []) else
    var n := |s.pending| - 1;
    var (s', first) := Serve(s.(pending := Front(s.pending)), Last(s.pending), KeyAt(r.pendingKeys, n), At(r.pendingClock, n));
    var (s'', rest) := ProcessPending(s', r);
    (s'', first + rest)
  }

  function HandleMasterPacket(m: Master, payload: Payload): Option<Event> {
    match payload
    case ListPayload(key) => if key == Some(m.key) then Some(ServerList(m.addr, m.key)) else None
    case ReplyPayload(InfoReply(_)) => Some(MasterServerInfo(m.addr))
    case ReplyPayload(_) => Some(MasterInvalidPacket(m.addr))
  }

  function HandleServerPacket(s: State, d: Datagram): (State, Option<Event>) {
    if d.from !in s.connections then (s, None) else
    var reply := if d.payload.ListPayload? then UnknownReply else d.payload.reply;
    var (c, notice, _) := Handle(s.connections[d.from], reply, d.now);
    if notice == Some(InvalidProtocolNotice) then
      (s.(connections := s.connections - {d.from}), Some(ServerEvent(d.from, InvalidProtocolNotice)))
    else
      (s.(connections := s.connections[d.from := c]),
       if notice.None? then None else Some(ServerEvent(d.from, notice.value)))
  }

  function HandlePacket(s: State, d: Datagram): (State, Option<Event>) {
    var i := IndexOf(Addrs(s.masters), d.from);
    if i < |s.masters| then (s, HandleMasterPacket(s.masters[i], d.payload)) else HandleServerPacket(s, d)
  }

  /** Packets are handled until one of them makes an event. */
  function ReceiveAll(s: State, packets: seq<Datagram>): (State, Option<Event>)
    decreases |packets|
  {
    if packets == [] then (s, None) else
    var (s, event) := HandlePacket(s, packets[0]);
    if event.Some? then (s, event) else ReceiveAll(s, packets[1..])
  }

  /** Everything that one iteration sends. */
  function Queries(s: State, r: Round): (State, seq<Query>) {
    var (s, fromTasks) := ProcessTasks(s, r);
    var (s, fromPending) := ProcessPending(s, r);
    (s, fromTasks + fromPending)
  }

  function PopDelayed(s: State): (State, Option<Event>)
    requires s.delayed != []
  {
    (s.(delayed := Front(s.delayed)), Some(DelayedEvent(Last(s.delayed))))
  }

  /** One iteration behind the deadline check: a delayed event or, failing that, a packet's event. */
  function Iterate(s: State, r: Round): (State, Option<Event>) {
    var (s, _) := Queries(s, r);
    if s.delayed != [] then PopDelayed(s) else ReceiveAll(s, r.packets)
  }

  /** What happened in one iteration: where it started, what it sent, and all that was sent up to its end. */
  datatype Record = Record(before: State, round: Round, log: seq<Query>)

  datatype Trace = Trace(state: State, event: Option<Event>, log: seq<Query>, records: seq<Record>)

  /** The loop, until there is an event or the inputs run out. */
  function Loop(s: State, deadline: Option<nat>, rounds: seq<Round>, log: seq<Query>): Trace
    decreases |rounds|
  {
    if rounds == [] then Trace(s, None, log, []) else
    var r := rounds[0];
    if deadline.Some? && deadline.value <= r.now then Trace(s, Some(Timeout), log, []) else
    var log' := log + Queries(s, r).1;
    var (s', event) := Iterate(s, r);
    if event.Some? then Trace(s', event, log', [Record(s, r, log')]) else
    var t := Loop(s', deadline, rounds[1..], log');
    t.(records := [Record(s, r, log')] + t.records)
  }

  function WaitEvent(s: State, deadline: Option<nat>, rounds: seq<Round>, log: seq<Query>): Trace {
    if s.delayed != [] then Trace(PopDelayed(s).0, PopDelayed(s).1, log, [])
    else Loop(s, deadline, rounds, log)
  }

  /** One call of the user. */
  datatype Call =
    | CallInsertMaster(m: Master) | CallRemoveMaster(addr: Addr)
    | CallInsertServer(addr: Addr, players: bool, now: nat) | CallRemoveServer(addr: Addr)
    | CallWait(deadline: Option<nat>, rounds: seq<Round>)

  function Do(s: State, call: Call, log: seq<Query>): Trace {
    match call
    case CallInsertMaster(m) => Trace(InsertMaster(s, m), None, log, [])
    case CallRemoveMaster(addr) => Trace(RemoveMaster(s, addr), None, log, [])
    case CallInsertServer(addr, players, now) => Trace(InsertServer(s, addr, players, now), None, log, [])
    case CallRemoveServer(addr) => Trace(RemoveServer(s, addr), None, log, [])
    case CallWait(deadline, rounds) => WaitEvent(s, deadline, rounds, log)
  }

  /** A whole run of calls, with the records of all iterations. */
  function RunCalls(s: State, calls: seq<Call>, log: seq<Query>): Trace
    decreases |calls|
  {
    if calls == [] then Trace(s, None, log, []) else
    var t := Do(s, calls[0], log);
    var u := RunCalls(t.state, calls[1..], t.log);
    u.(records := t.records + u.records)
  }
}
