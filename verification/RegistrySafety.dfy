/** Safety over whole runs: bans and per-IP quotas. */
module RegistrySafety {
  import opened Prelude
  import opened Types
  import opened Clock
  import opened TimedMap
  import opened TimedMapRefinement
  import opened Registry

  predicate NoneBlocked(s: State) {
    forall a | a in s.servers.entries :: a.ip !in s.blocklist
  }

  ghost predicate WithinQuota(max: u16, servers: Store<Addr, ServerInfo>, now: nat) {
    forall ip :: |LiveServersOf(servers, ip, now)| <= max
  }

  lemma ClockIsMonotone(e: Event, start: nat, i: nat, j: nat)
    requires e.WellTimed(start) && i <= j
    ensures start <= e.Now(i) <= e.Now(j) <= e.End()
  {
    var n := |e.clock| - 1;
    assert e.clock[0] <= e.clock[n];
  }

  lemma WithinQuotaOfPart(
      max: u16, part: Store<Addr, ServerInfo>, whole: Store<Addr, ServerInfo>, now: nat, later: nat)
    requires WithinQuota(max, whole, now) && now <= later
    requires part.timeout == whole.timeout
    requires forall a | a in part.entries :: a in whole.entries && part.entries[a] == whole.entries[a]
    ensures WithinQuota(max, part, later)
  {
    forall ip
      ensures |LiveServersOf(part, ip, later)| <= max
    {
      LiveServersShrink(part, whole, ip, now, later);
    }
  }

  lemma LiveServersShrink(
      part: Store<Addr, ServerInfo>, whole: Store<Addr, ServerInfo>, ip: Ip, now: nat, later: nat)
    requires now <= later && part.timeout == whole.timeout
    requires forall a | a in part.entries :: a in whole.entries && part.entries[a] == whole.entries[a]
    ensures LiveServersOf(part, ip, later) <= LiveServersOf(whole, ip, now)
    ensures |LiveServersOf(part, ip, later)| <= |LiveServersOf(whole, ip, now)|
  {
    forall a | a in LiveServersOf(part, ip, later)
      ensures a in LiveServersOf(whole, ip, now)
    {
      LaterLiveWasLive(part.entries[a], now, later, part.timeout);
    }
    SizeOfSubset(LiveServersOf(part, ip, later), LiveServersOf(whole, ip, now));
  }

  /** Refreshing a live server leaves the live set of every IP within what it was. */
  lemma RefreshKeepsQuota(max: u16, m: Store<Addr, ServerInfo>, addr: Addr, e: Timed<ServerInfo>, now: nat, later: nat)
    requires WithinQuota(max, m, now) && now <= later
    requires addr in m.entries && Live(m.entries[addr], now, m.timeout)
    ensures WithinQuota(max, PutEntry(m, addr, e), later)
  {
    var m' := PutEntry(m, addr, e);
    forall ip
      ensures |LiveServersOf(m', ip, later)| <= max
    {
      forall a | a in LiveServersOf(m', ip, later)
        ensures a in LiveServersOf(m, ip, now)
      {
        if a != addr {
          LaterLiveWasLive(m.entries[a], now, later, m.timeout);
        }
      }
      SizeOfSubset(LiveServersOf(m', ip, later), LiveServersOf(m, ip, now));
    }
  }

  /** Adding a server counted below the limit, even if others expire while it is being added. */
  lemma InsertKeepsQuota(max: u16, m: Store<Addr, ServerInfo>, addr: Addr, e: Timed<ServerInfo>, now: nat, later: nat)
    requires WithinQuota(max, m, now) && now <= later
    requires |LiveServersOf(m, addr.ip, now)| < max
    ensures WithinQuota(max, PutEntry(m, addr, e), later)
  {
    var m' := PutEntry(m, addr, e);
    forall ip
      ensures |LiveServersOf(m', ip, later)| <= max
    {
      var before := LiveServersOf(m, ip, now);
      var bound := if ip == addr.ip then before + {addr} else before;
      forall a | a in LiveServersOf(m', ip, later)
        ensures a in bound
      {
        if a != addr {
          LaterLiveWasLive(m.entries[a], now, later, m.timeout);
        }
      }
      SizeOfSubset(LiveServersOf(m', ip, later), bound);
    }
  }

  /** `count() as u16` loses nothing. */
  lemma CountDoesNotTruncate(max: u16, servers: Store<Addr, ServerInfo>, ip: Ip, now: nat)
    requires WithinQuota(max, servers, now)
    ensures CountServers(servers, ip, now) == |LiveServersOf(servers, ip, now)|
  {
    assert |LiveServersOf(servers, ip, now)| < 0x1_0000;
  }

  lemma AddServerKeepsQuota(
      cfg: Config, servers: Store<Addr, ServerInfo>, addr: Addr, info: ServerInfo, t: (nat, nat, nat, nat), now: nat, end: nat)
    requires WithinQuota(cfg.maxServersPerIp, servers, now) && now <= t.0 <= t.1 <= t.2 <= t.3 <= end
    ensures WithinQuota(cfg.maxServersPerIp, AddServer(cfg, servers, addr, info, t), end)
    ensures AddServer(cfg, servers, addr, info, t).entries.Keys <= servers.entries.Keys + {addr}
    ensures AddServer(cfg, servers, addr, info, t).timeout == servers.timeout
  {
    var max := cfg.maxServersPerIp;
    var m := OpenEntry(servers, addr, t.0);
    WithinQuotaOfPart(max, m, servers, now, t.0);
    if addr in m.entries {
      RefreshKeepsQuota(max, m, addr, Timed(t.1, info), t.0, end);
    } else {
      WithinQuotaOfPart(max, m, m, t.0, t.1);
      CountDoesNotTruncate(max, m, addr.ip, t.1);
      if CountServers(m, addr.ip, t.1) < max {
        var e := Timed(t.2, info);
        InsertKeepsQuota(max, m, addr, e, t.1, end);
        WithinQuotaOfPart(max, Insert(m, addr, info, t.2, t.3), PutEntry(m, addr, e), end, end);
      } else {
        WithinQuotaOfPart(max, m, m, t.1, end);
      }
    }
  }

  /** Opening an entry leaves every live entry in place, and finds the key itself exactly when it is live. */
  lemma OpenEntryKeepsLive(servers: Store<Addr, ServerInfo>, addr: Addr, now: nat, later: nat)
    requires now <= later
    ensures var m := OpenEntry(servers, addr, now);
            && m.timeout == servers.timeout
            && (addr in m.entries <==> Lookup(servers.entries, addr, now, servers.timeout).Some?)
            && (forall a :: Lookup(m.entries, a, later, m.timeout) == Lookup(servers.entries, a, later, m.timeout))
            && forall ip :: LiveServersOf(m, ip, later) == LiveServersOf(servers, ip, later)
  {
    var m := OpenEntry(servers, addr, now);
    forall a | a in servers.entries && Live(servers.entries[a], later, servers.timeout)
      ensures a in m.entries
    {
      LaterLiveWasLive(servers.entries[a], now, later, servers.timeout);
    }
  }

  /** What adding comes to, in terms of what the map showed before: a server that was live is refreshed; any
      other is added exactly when its IP had fewer live servers than the quota; and nobody else is touched. */
  lemma AddServerExactly(
      cfg: Config, servers: Store<Addr, ServerInfo>, addr: Addr, info: ServerInfo, t: (nat, nat, nat, nat), now: nat)
    requires WithinQuota(cfg.maxServersPerIp, servers, now) && now <= t.0 <= t.1 <= t.2 <= t.3
    ensures var after := AddServer(cfg, servers, addr, info, t).entries;
            var known := Lookup(servers.entries, addr, t.0, servers.timeout).Some?;
            var room := |LiveServersOf(servers, addr.ip, t.1)| < cfg.maxServersPerIp;
            var stamp := if known then t.1 else t.2;
            && Lookup(after, addr, t.3, servers.timeout)
            == (if (known || room) && IsValid(stamp, t.3, servers.timeout) then Some(Timed(stamp, info)) else None)
            && forall a | a != addr ::
                 Lookup(after, a, t.3, servers.timeout) == Lookup(servers.entries, a, t.3, servers.timeout)
  {
    OpenEntryKeepsLive(servers, addr, t.0, t.1);
    OpenEntryKeepsLive(servers, addr, t.0, t.3);
    WithinQuotaOfPart(cfg.maxServersPerIp, servers, servers, now, t.1);
    CountDoesNotTruncate(cfg.maxServersPerIp, servers, addr.ip, t.1);
  }

  /** Nothing else is ever stored for the added address, live or not. */
  lemma AddedIsAdmissible(
      cfg: Config, servers: Store<Addr, ServerInfo>, addr: Addr, info: ServerInfo, t: (nat, nat, nat, nat), now: nat)
    requires WithinQuota(cfg.maxServersPerIp, servers, now) && now <= t.0 <= t.1 <= t.2 <= t.3
    requires addr in AddServer(cfg, servers, addr, info, t).entries
    ensures var known := Lookup(servers.entries, addr, t.0, servers.timeout).Some?;
            && (known || |LiveServersOf(servers, addr.ip, t.1)| < cfg.maxServersPerIp)
            && AddServer(cfg, servers, addr, info, t).entries[addr] == Timed(if known then t.1 else t.2, info)
  {
    OpenEntryKeepsLive(servers, addr, t.0, t.1);
    WithinQuotaOfPart(cfg.maxServersPerIp, servers, servers, now, t.1);
    CountDoesNotTruncate(cfg.maxServersPerIp, servers, addr.ip, t.1);
  }

  lemma BanKeepsSafety(max: u16, s: State, ip: Ip, now: nat, end: nat)
    requires NoneBlocked(s) && WithinQuota(max, s.servers, end)
    ensures NoneBlocked(BanIp(s, ip, now)) && WithinQuota(max, BanIp(s, ip, now).servers, end)
    ensures BanIp(s, ip, now).servers.timeout == s.servers.timeout
    ensures ip in BanIp(s, ip, now).blocklist && forall a | a in BanIp(s, ip, now).servers.entries :: a.ip != ip
  {
    WithinQuotaOfPart(max, BanIp(s, ip, now).servers, s.servers, end, end);
  }

  lemma {:induction false} BanAllKeepsSafety(max: u16, s: State, ips: seq<Option<Ip>>, e: Event, i: nat, end: nat)
    requires NoneBlocked(s) && WithinQuota(max, s.servers, end)
    ensures NoneBlocked(BanAll(s, ips, e, i)) && WithinQuota(max, BanAll(s, ips, e, i).servers, end)
    decreases |ips|
  {
    if ips != [] {
      if ips[0].Some? {
        BanKeepsSafety(max, s, ips[0].value, e.Now(i), end);
        BanAllKeepsSafety(max, BanIp(s, ips[0].value, e.Now(i)), ips[1..], e, i + 1, end);
      } else {
        BanAllKeepsSafety(max, s, ips[1..], e, i + 1, end);
      }
    }
  }

  lemma {:induction false} UnbanAllShrinks(blocklist: set<Ip>, ips: seq<Option<Ip>>)
    ensures UnbanAll(blocklist, ips) == set ip | ip in blocklist && Some(ip) !in ips
  {
    if ips != [] {
      var b := if ips[0].Some? then blocklist - {ips[0].value} else blocklist;
      UnbanAllShrinks(b, ips[1..]);
      assert forall ip :: Some(ip) in ips <==> Some(ip) == ips[0] || Some(ip) in ips[1..];
    }
  }

  lemma CommandKeepsSafety(max: u16, s: State, command: Command, e: Event, end: nat)
    requires NoneBlocked(s) && WithinQuota(max, s.servers, end)
    ensures NoneBlocked(RunCommand(s, command, e)) && WithinQuota(max, RunCommand(s, command, e).servers, end)
  {
    match command
    case Ban(ips) => BanAllKeepsSafety(max, s, ips, e, 2, end);
    case Unban(ips) => UnbanAllShrinks(s.blocklist, ips);
    case InvalidCommand =>
  }

  lemma ServerAddKeepsSafety(cfg: Config, s: State, e: Event, msg: ServerAdd, start: nat)
    requires NoneBlocked(s) && WithinQuota(cfg.maxServersPerIp, s.servers, start) && e.WellTimed(start)
    requires e.from.ip !in s.blocklist
    ensures NoneBlocked(HandleServerAdd(cfg, s, e, msg).0)
    ensures WithinQuota(cfg.maxServersPerIp, HandleServerAdd(cfg, s, e, msg).0.servers, e.End())
  {
    ClockIsMonotone(e, start, 0, 2);
    ClockIsMonotone(e, start, 2, 3);
    ClockIsMonotone(e, start, 3, 4);
    ClockIsMonotone(e, start, 4, 5);
    WithinQuotaOfPart(cfg.maxServersPerIp, s.servers, s.servers, start, e.End());
    AddServerKeepsQuota(cfg, s.servers, e.from, NewServerInfo(msg),
                        (e.Now(2), e.Now(3), e.Now(4), e.Now(5)), start, e.End());
  }

  lemma StepKeepsSafety(cfg: Config, s: State, e: Event, start: nat)
    requires NoneBlocked(s) && WithinQuota(cfg.maxServersPerIp, s.servers, start) && e.WellTimed(start)
    ensures NoneBlocked(Step(cfg, s, e).0)
    ensures WithinQuota(cfg.maxServersPerIp, Step(cfg, s, e).0.servers, e.End())
  {
    var max := cfg.maxServersPerIp;
    ClockIsMonotone(e, start, 0, 0);
    WithinQuotaOfPart(max, s.servers, s.servers, start, e.End());
    if e.from.ip !in s.blocklist {
      match e.packet
      case AddRequest(msg) => ServerAddKeepsSafety(cfg, s, e, msg, start);
      case AdminCommand(_, _, command) => CommandKeepsSafety(max, s, command, e, e.End());
      case _ =>
    }
  }

  /** Main result: in every reachable state no stored server, live or stale, belongs to a banned IP, and
      from the last clock reading on every IP has at most `max_servers_per_ip` live servers. */
  lemma {:induction false} ReachableStatesAreSafe(cfg: Config, events: seq<Event>)
    requires WellTimedRun(events)
    ensures NoneBlocked(Run(cfg, events).0)
    ensures forall now | EndOf(events) <= now ::
              WithinQuota(cfg.maxServersPerIp, Run(cfg, events).0.servers, now)
  {
    var s := Run(cfg, events).0;
    if events == [] {
      assert forall ip :: LiveServersOf(s.servers, ip, 0) == {};
      assert WithinQuota(cfg.maxServersPerIp, s.servers, EndOf(events));
    } else {
      var last := |events| - 1;
      var s0 := Run(cfg, events[..last]).0;
      ReachableStatesAreSafe(cfg, events[..last]);
      assert WithinQuota(cfg.maxServersPerIp, s0.servers, EndOf(events[..last]));
      StepKeepsSafety(cfg, s0, events[last], EndOf(events[..last]));
    }
    forall now | EndOf(events) <= now
      ensures WithinQuota(cfg.maxServersPerIp, s.servers, now)
    {
      WithinQuotaOfPart(cfg.maxServersPerIp, s.servers, s.servers, EndOf(events), now);
    }
  }
}
