/** The object that runs a query: its methods do what the functions of QueryJoin say
    (crates/xash3d-query/src/query_servers_info.rs). */
module QueryRunner {
  import opened Prelude
  import opened Types
  import opened Connections
  import Observers
  import opened ObserverLoop
  import opened ServerResults
  import opened QueryJoin

  lemma RunAfterTurn(
      q: Query, todo: seq<Wait>, remaining: nat, serverTimeout: nat, answered: set<Addr>, q': Query, stop: Option<Stop>,
      o: Outcome)
    requires todo != [] && !(q.custom && q.left == {}) && (q', stop) == QueryJoin.Turn(q, todo[0], remaining, serverTimeout)
    requires RunQuery(q, todo, remaining, serverTimeout, answered) == o
    ensures stop.Some? ==> (q', stop.value) == (o.query, o.stop)
    ensures stop.None? ==>
              && todo[0].elapsed <= q'.timeout
              && RunQuery(q', todo[1..], q'.timeout - todo[0].elapsed, serverTimeout, answered + CompleteNow(q')) == o
  {
    UnfoldRun(q, todo, remaining, serverTimeout, answered);
  }

  class QueryServersInfo {
    const custom: bool
    const players: bool
    const observer: Observer
    var timeoutMaster: bool
    var timeout: nat
    var servers: map<Addr, ServerResult>
    var serversCustom: set<Addr>

    ghost function Abs(): Query
      reads this, observer
    {
      Query(custom, players, servers, serversCustom, observer.Abs(), timeout, timeoutMaster)
    }

    constructor (custom: bool, players: bool, observer: Observer, masterTimeout: nat, serverTimeout: nat)
      ensures Abs() == NewQuery(custom, players, observer.Abs(), masterTimeout, serverTimeout) && this.observer == observer
    {
      this.custom, this.players, this.observer := custom, players, observer;
      timeout := if custom then serverTimeout else masterTimeout;
      timeoutMaster, servers, serversCustom := !custom, map[], {};
    }

    method InsertServer(addr: Addr, now: nat)
      modifies this`servers, observer
      ensures Abs() == QueryJoin.InsertServer(old(Abs()), addr, now)
    {
      observer.InsertServer(addr, players, now);
      if addr !in servers {
        servers := servers[addr := New(TimeoutKind)];
      }
    }

    method InsertCustomServer(addr: Addr, now: nat)
      modifies this`servers, this`serversCustom, observer
      ensures Abs() == InsertCustom(old(Abs()), addr, now)
    {
      serversCustom := serversCustom + {addr};
      InsertServer(addr, now);
    }

    method InsertList(list: seq<Addr>, now: nat)
      modifies this`servers, observer
      ensures Abs() == InsertAll(old(Abs()), list, now)
    {
      for i := 0 to |list|
        invariant Abs() == InsertAll(old(Abs()), list[..i], now)
      {
        assert Front(list[..i + 1]) == list[..i];
        InsertServer(list[i], now);
      }
      assert list[..|list|] == list;
    }

    method SetServerResult(addr: Addr, kind: Kind)
      modifies this`servers, this`serversCustom
      ensures Abs() == SetResult(old(Abs()), addr, kind)
    {
      if custom {
        serversCustom := serversCustom - {addr};
      }
      servers := servers[addr := New(kind)];
    }

    method SetServerResultOk(addr: Addr, ping: nat, info: Info)
      modifies this`servers, this`serversCustom
      ensures Abs() == ResultOk(old(Abs()), addr, ping, info)
    {
      var r := if addr in servers then servers[addr] else New(TimeoutKind);
      if custom && (!players || r.players.Some?) {
        serversCustom := serversCustom - {addr};
      }
      servers := servers[addr := SetOk(r, ping, info)];
    }

    method SetServerPlayers(addr: Addr, all: Players)
      requires addr in servers
      modifies this`servers, this`serversCustom
      ensures Abs() == ResultPlayers(old(Abs()), addr, all)
    {
      var r := servers[addr];
      if custom && (!players || r.kind.OkKind?) {
        serversCustom := serversCustom - {addr};
      }
      servers := servers[addr := SetPlayers(r, all)];
    }

    method SetServerNotice(addr: Addr, notice: Notice, c: Content)
      requires Expected(Abs(), Observers.ServerEvent(addr, notice))
      modifies this`servers, this`serversCustom
      ensures Abs() == HandleEvent(old(Abs()), Observers.ServerEvent(addr, notice), c, 0, 0)
    {
      match notice
      case InfoNotice(ping, _) => SetServerResultOk(addr, ping, c.info);
      case PlayersNotice => SetServerPlayers(addr, c.players);
      case InvalidProtocolNotice => SetServerResult(addr, InvalidProtocolKind);
      case InvalidPacketNotice =>
        if addr !in servers || servers[addr].kind.TimeoutKind? {
          SetServerResult(addr, InvalidPacketKind(c.raw));
        }
    }

    method Handle(event: Observers.Event, c: Content, now: nat, serverTimeout: nat)
      requires Expected(Abs(), event)
      modifies this, observer
      ensures Abs() == HandleEvent(old(Abs()), event, c, now, serverTimeout)
    {
      match event
      case ServerList(_, _) =>
        if timeoutMaster {
          timeoutMaster, timeout := false, serverTimeout;
        }
        InsertList(c.list, now);
      case MasterServerInfo(addr) => SetServerResultOk(addr, 0, c.info);
      case ServerEvent(addr, notice) => SetServerNotice(addr, notice, c);
      case Timeout | DelayedEvent(_) | MasterInvalidPacket(_) =>
    }

    /** One turn of the loop. */
    method Turn(w: Wait, remaining: nat, serverTimeout: nat) returns (stop: Option<Stop>)
      requires Inv(Abs())
      modifies this, observer
      ensures (Abs(), stop) == QueryJoin.Turn(old(Abs()), w, remaining, serverTimeout) && Inv(Abs())
    {
      TurnKeepsInv(Abs(), w, remaining, serverTimeout);
      var event, _ := observer.WaitEvent(Some(w.now + remaining), w.rounds);
      if event.None? {
        return Some(Waiting);
      }
      if event.value.Timeout? {
        return Some(TimedOut);
      }
      Handle(event.value, w.content, w.now, serverTimeout);
      stop := if timeout < w.elapsed then Some(TimedOut) else None;
    }

    /** The event loop, until it stops or the inputs run out. */
    method Run(waits: seq<Wait>, serverTimeout: nat) returns (stop: Stop)
      requires Inv(Abs())
      modifies this, observer
      ensures var o := RunQuery(old(Abs()), waits, old(timeout), serverTimeout, {}); Abs() == o.query && stop == o.stop
    {
      ghost var o := RunQuery(Abs(), waits, timeout, serverTimeout, {});
      var remaining: nat := timeout;
      var todo := waits;
      ghost var answered := {};
      while todo != [] && !(custom && serversCustom == {})
        invariant Inv(Abs()) && RunQuery(Abs(), todo, remaining, serverTimeout, answered) == o
        decreases |todo|
      {
        ghost var before := Abs();
        var last := Turn(todo[0], remaining, serverTimeout);
        RunAfterTurn(before, todo, remaining, serverTimeout, answered, Abs(), last, o);
        if last.Some? {
          return last.value;
        }
        answered := answered + CompleteNow(Abs());
        remaining, todo := timeout - todo[0].elapsed, todo[1..];
      }
      stop := if custom && serversCustom == {} then AllAnswered else Waiting;
    }
  }
}
