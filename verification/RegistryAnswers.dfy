/** What clients are answered, over whole runs: only what may be listed, and everything that should be. */
module RegistryAnswers {
  import opened Prelude
  import opened Types
  import opened Clock
  import opened TimedMap
  import opened TimedMapRefinement
  import opened Registry
  import opened RegistrySafety
  import opened RegistryChallenges
  import opened RegistryQueries
  import opened RegistryRateLimit
  import opened ServerAnswers

  /** What a client gets to see: the fake server, or an answer without banned IPs that lists no IP more often
      than the quota. */
  lemma AnswersAreSafe(cfg: Config, events: seq<Event>, e: Event, act: Action, ip: Ip)
    requires WellTimedRun(events) && e.WellTimed(EndOf(events))
    requires act.Listed? && act in Step(cfg, Run(cfg, events).0, e).1
    ensures var mine := set a | a in act.listed && a.ip == ip;
            || act.listed == {cfg.updateAddr}
            || (|mine| <= cfg.maxServersPerIp && (ip in Run(cfg, events).0.blocklist ==> mine == {}))
  {
    var s, now := Run(cfg, events).0, e.Now(2);
    ListedIsAnswer(cfg, s, e, act);
    ReachableStatesAreSafe(cfg, events);
    ClockIsMonotone(e, EndOf(events), 0, 2);
    assert WithinQuota(cfg.maxServersPerIp, s.servers, now);
    if Served(cfg, e.packet.query.value.filter) {
      var mine := set a | a in act.listed && a.ip == ip;
      SizeOfSubset(mine, LiveServersOf(s.servers, ip, now));
    }
  }

  /** End to end: every address listed to a client whose query is served registered with details that the query
      asks for, by returning in time a number that had been issued to that very address. */
  lemma ListedServersAnsweredTheirChallenge(cfg: Config, events: seq<Event>, e: Event, act: Action, a: Addr)
    requires WellTimedRun(events) && e.packet.QueryServers? && e.packet.query.Some?
    requires Served(cfg, e.packet.query.value.filter)
    requires act.Listed? && act in Step(cfg, Run(cfg, events).0, e).1 && a in act.listed
    ensures exists i, j :: ProvedAt(Run(cfg, events).1, i, j, a, e.packet.query.value, cfg.challengeTimeout)
  {
    ListedIsAnswer(cfg, Run(cfg, events).0, e, act);
    SelectedServersAnsweredTheirChallenge(cfg, events, e.packet.query.value, e.Now(2), a);
  }

  lemma {:induction false} RunKeepsFit(f: Family, cfg: Config, events: seq<Event>)
    requires forall e | e in events :: f.Fits(e.from)
    ensures ServersFit(f, Run(cfg, events).0)
  {
    if events != [] {
      var last := |events| - 1;
      RunKeepsFit(f, cfg, events[..last]);
      StepKeepsFit(f, cfg, Run(cfg, events[..last]).0, events[last]);
    }
  }

  // Completeness

  /** An entry that is still live at `later` is stored. */
  predicate Holds(s: State, a: Addr, entry: Timed<ServerInfo>) {
    a in s.servers.entries && s.servers.entries[a] == entry
  }

  lemma {:induction false} BanAllSpares(s: State, ips: seq<Option<Ip>>, e: Event, i: nat, a: Addr, entry: Timed<ServerInfo>)
    requires Holds(s, a, entry) && IsValid(entry.time, e.End(), s.servers.timeout)
    requires e.WellTimed(0) && a.ip !in BanAll(s, ips, e, i).blocklist
    ensures Holds(BanAll(s, ips, e, i), a, entry)
    decreases |ips|
  {
    if ips != [] {
      var s' := if ips[0].Some? then BanIp(s, ips[0].value, e.Now(i)) else s;
      BlocklistGrows(s', ips[1..], e, i + 1);
      ClockIsMonotone(e, 0, i, i);
      LaterLiveWasLive(entry, e.Now(i), e.End(), s.servers.timeout);
      BanAllSpares(s', ips[1..], e, i + 1, a, entry);
    }
  }

  lemma {:induction false} BlocklistGrows(s: State, ips: seq<Option<Ip>>, e: Event, i: nat)
    ensures s.blocklist <= BanAll(s, ips, e, i).blocklist
    decreases |ips|
  {
    if ips != [] {
      BlocklistGrows(if ips[0].Some? then BanIp(s, ips[0].value, e.Now(i)) else s, ips[1..], e, i + 1);
    }
  }

  lemma AddingSparesOthers(
      cfg: Config, servers: Store<Addr, ServerInfo>, addr: Addr, info: ServerInfo, t: (nat, nat, nat, nat),
      end: nat, a: Addr)
    requires t.0 <= t.3 <= end && a != addr && a in servers.entries && Live(servers.entries[a], end, servers.timeout)
    ensures var after := AddServer(cfg, servers, addr, info, t).entries;
            a in after && after[a] == servers.entries[a]
  {
    LaterLiveWasLive(servers.entries[a], t.0, end, servers.timeout);
    LaterLiveWasLive(servers.entries[a], t.3, end, servers.timeout);
  }

  /** Neither a ban of its IP nor a new registration of its own. */
  predicate LeavesAlone(cfg: Config, s: State, e: Event, a: Addr) {
    && a.ip !in Step(cfg, s, e).0.blocklist
    && forall act | act in Step(cfg, s, e).1 :: !(act.Registered? && act.addr == a)
  }

  lemma AddKeepsServer(cfg: Config, s: State, e: Event, msg: ServerAdd, start: nat, a: Addr, entry: Timed<ServerInfo>)
    requires Holds(s, a, entry) && e.WellTimed(start) && IsValid(entry.time, e.End(), s.servers.timeout)
    requires forall act | act in HandleServerAdd(cfg, s, e, msg).1 :: !(act.Registered? && act.addr == a)
    ensures Holds(HandleServerAdd(cfg, s, e, msg).0, a, entry)
  {
    var (s', actions) := HandleServerAdd(cfg, s, e, msg);
    if actions != [] {
      assert actions[0] in actions;
      ClockIsMonotone(e, start, 2, 5);
      AddingSparesOthers(
        cfg, s.servers, e.from, NewServerInfo(msg), (e.Now(2), e.Now(3), e.Now(4), e.Now(5)), e.End(), a);
    }
  }

  lemma StepKeepsServer(cfg: Config, s: State, e: Event, start: nat, a: Addr, entry: Timed<ServerInfo>)
    requires Holds(s, a, entry) && e.WellTimed(start) && IsValid(entry.time, e.End(), s.servers.timeout)
    requires LeavesAlone(cfg, s, e, a)
    ensures Holds(Step(cfg, s, e).0, a, entry)
  {
    if e.from.ip !in s.blocklist && e.packet.AddRequest? {
      AddKeepsServer(cfg, s, e, e.packet.msg, start, a, entry);
    } else if e.from.ip !in s.blocklist && e.packet.AdminCommand? && e.packet.command.Ban? {
      if HandleAdminCommand(cfg, s, e).1 != [] {
        BanAllSpares(s, e.packet.command.ips, e, 2, a, entry);
      }
    }
  }

  lemma StepKeepsTimeout(cfg: Config, s: State, e: Event)
    ensures Step(cfg, s, e).0.servers.timeout == s.servers.timeout
  {
    if e.packet.AdminCommand? && e.packet.command.Ban? {
      BanKeepsTimeout(s, e.packet.command.ips, e, 2);
    }
  }

  lemma {:induction false} ServersTimeoutIsFixed(cfg: Config, events: seq<Event>)
    ensures Run(cfg, events).0.servers.timeout == cfg.serverTimeout
  {
    if events != [] {
      var last := |events| - 1;
      ServersTimeoutIsFixed(cfg, events[..last]);
      StepKeepsTimeout(cfg, Run(cfg, events[..last]).0, events[last]);
    }
  }

  lemma {:induction false} BanKeepsTimeout(s: State, ips: seq<Option<Ip>>, e: Event, i: nat)
    ensures BanAll(s, ips, e, i).servers.timeout == s.servers.timeout
    decreases |ips|
  {
    if ips != [] {
      BanKeepsTimeout(if ips[0].Some? then BanIp(s, ips[0].value, e.Now(i)) else s, ips[1..], e, i + 1);
    }
  }

  /** From event `k` on, the run leaves the server alone. */
  predicate LeftAlone(cfg: Config, events: seq<Event>, k: nat, a: Addr) {
    forall i | k <= i < |events| :: LeavesAlone(cfg, Run(cfg, events[..i]).0, events[i], a)
  }

  lemma LeftAloneBefore(cfg: Config, events: seq<Event>, k: nat, a: Addr)
    requires LeftAlone(cfg, events, k, a) && events != []
    ensures LeftAlone(cfg, events[..|events| - 1], k, a)
  {
    var front := events[..|events| - 1];
    assert forall i | 0 <= i < |front| :: front[..i] == events[..i];
  }

  /** A stored server stays stored until its timeout, unless its IP is banned or it registers anew. */
  lemma {:induction false} StoredStays(
      cfg: Config, events: seq<Event>, k: nat, a: Addr, entry: Timed<ServerInfo>)
    requires WellTimedRun(events) && k <= |events| && Holds(Run(cfg, events[..k]).0, a, entry)
    requires LeftAlone(cfg, events, k, a) && IsValid(entry.time, EndOf(events), cfg.serverTimeout)
    ensures Holds(Run(cfg, events).0, a, entry)
  {
    if k == |events| {
      assert events[..k] == events;
    } else {
      var last := |events| - 1;
      var front, e := events[..last], events[last];
      LeftAloneBefore(cfg, events, k, a);
      assert front[..k] == events[..k];
      ClockIsMonotone(e, EndOf(front), 0, 0);
      ValidityIsMonotone(entry.time, entry.time, EndOf(front), EndOf(events), cfg.serverTimeout);
      StoredStays(cfg, front, k, a, entry);
      ServersTimeoutIsFixed(cfg, front);
      StepKeepsServer(cfg, Run(cfg, front).0, e, EndOf(front), a, entry);
    }
  }

  /** Whether a registration may be stored: the server is known, or its IP has room for another. */
  predicate Admissible(cfg: Config, s: State, e: Event) {
    || Lookup(s.servers.entries, e.from, e.Now(2), s.servers.timeout).Some?
    || |LiveServersOf(s.servers, e.from.ip, e.Now(3))| < cfg.maxServersPerIp
  }

  /** The stamp that a stored registration gets. */
  function Stamp(s: State, e: Event): nat {
    if Lookup(s.servers.entries, e.from, e.Now(2), s.servers.timeout).Some? then e.Now(3) else e.Now(4)
  }

  /** Event `k` of the run is an admissible registration of `a` with the details `msg`. */
  predicate RegistersAt(cfg: Config, events: seq<Event>, k: nat, a: Addr, msg: ServerAdd)
    requires k < |events|
  {
    var s := Run(cfg, events[..k]).0;
    && Registered(a, msg.challenge, events[k].Now(1), msg) in Step(cfg, s, events[k]).1
    && Admissible(cfg, s, events[k])
  }

  function StampAt(cfg: Config, events: seq<Event>, k: nat): nat
    requires k < |events|
  {
    Stamp(Run(cfg, events[..k]).0, events[k])
  }

  lemma AdmissibleIsStored(cfg: Config, s: State, e: Event, info: ServerInfo, start: nat)
    requires WithinQuota(cfg.maxServersPerIp, s.servers, start) && e.WellTimed(start) && Admissible(cfg, s, e)
    requires IsValid(Stamp(s, e), e.End(), s.servers.timeout)
    ensures var after := AddServer(cfg, s.servers, e.from, info, (e.Now(2), e.Now(3), e.Now(4), e.Now(5)));
            e.from in after.entries && after.entries[e.from] == Timed(Stamp(s, e), info)
  {
    ClockIsMonotone(e, start, 2, 3);
    ClockIsMonotone(e, start, 3, 4);
    ClockIsMonotone(e, start, 4, 5);
    ValidityIsMonotone(Stamp(s, e), Stamp(s, e), e.Now(5), e.End(), s.servers.timeout);
    AddServerExactly(cfg, s.servers, e.from, info, (e.Now(2), e.Now(3), e.Now(4), e.Now(5)), start);
  }

  /** What a registration does to the stored servers. */
  lemma RegistrationAdds(cfg: Config, s: State, e: Event, a: Addr, msg: ServerAdd)
    requires Registered(a, msg.challenge, e.Now(1), msg) in Step(cfg, s, e).1
    ensures a == e.from
    ensures Step(cfg, s, e).0.servers
         == AddServer(cfg, s.servers, e.from, NewServerInfo(msg), (e.Now(2), e.Now(3), e.Now(4), e.Now(5)))
  {
    OnlyAddRequestsRegister(cfg, s, e, Registered(a, msg.challenge, e.Now(1), msg));
  }

  lemma RegistrationIsStored(cfg: Config, events: seq<Event>, k: nat, a: Addr, msg: ServerAdd)
    requires k < |events| && WellTimedRun(events[..k]) && events[k].WellTimed(EndOf(events[..k]))
    ensures RegistersAt(cfg, events, k, a, msg) && IsValid(StampAt(cfg, events, k), events[k].End(), cfg.serverTimeout) ==>
              Holds(Step(cfg, Run(cfg, events[..k]).0, events[k]).0, a, Timed(StampAt(cfg, events, k), NewServerInfo(msg)))
  {
    if RegistersAt(cfg, events, k, a, msg) && IsValid(StampAt(cfg, events, k), events[k].End(), cfg.serverTimeout) {
      var s, e := Run(cfg, events[..k]).0, events[k];
      ReachableStatesAreSafe(cfg, events[..k]);
      assert WithinQuota(cfg.maxServersPerIp, s.servers, EndOf(events[..k]));
      ServersTimeoutIsFixed(cfg, events[..k]);
      RegistrationAdds(cfg, s, e, a, msg);
      AdmissibleIsStored(cfg, s, e, NewServerInfo(msg), EndOf(events[..k]));
    }
  }

  /** At `now`, server `a` is known by its registration at event `k`: that was admissible, nothing has replaced it
      since, its IP is not banned, and its stamp has not outlived the timeout. */
  predicate KnownSince(cfg: Config, events: seq<Event>, k: nat, a: Addr, msg: ServerAdd, now: nat) {
    && k < |events| && RegistersAt(cfg, events, k, a, msg) && LeftAlone(cfg, events, k + 1, a)
    && 0 < cfg.serverTimeout && now < StampAt(cfg, events, k) + TICKS_PER_SEC * cfg.serverTimeout
  }

  /** A server that is known is stored. */
  lemma KnownIsStored(cfg: Config, events: seq<Event>, k: nat, a: Addr, msg: ServerAdd, now: nat)
    requires WellTimedRun(events) && EndOf(events) <= now
    ensures KnownSince(cfg, events, k, a, msg, now) ==>
              && Holds(Run(cfg, events).0, a, Timed(StampAt(cfg, events, k), NewServerInfo(msg)))
              && IsValid(StampAt(cfg, events, k), now, Run(cfg, events).0.servers.timeout)
  {
    if KnownSince(cfg, events, k, a, msg, now) {
      var stamp, e := StampAt(cfg, events, k), events[k];
      ValidIffWithinTimeout(stamp, now, cfg.serverTimeout);
      RunIsTimed(events, k);
      RunIsTimed(events, k + 1);
      assert events[..k + 1][..k] == events[..k] && events[..k + 1][k] == e;
      EndsGrow(events, k + 1);
      ValidityIsMonotone(stamp, stamp, e.End(), now, cfg.serverTimeout);
      ValidityIsMonotone(stamp, stamp, EndOf(events), now, cfg.serverTimeout);
      RegistrationIsStored(cfg, events, k, a, msg);
      StoredStays(cfg, events, k + 1, a, Timed(stamp, NewServerInfo(msg)));
      ServersTimeoutIsFixed(cfg, events);
    }
  }

  // Where stored servers come from

  /** The step stores `a` anew, by an admissible registration. */
  predicate Stores(cfg: Config, s: State, e: Event, a: Addr, entry: Timed<ServerInfo>) {
    && e.packet.AddRequest? && Registered(a, e.packet.msg.challenge, e.Now(1), e.packet.msg) in Step(cfg, s, e).1
    && Admissible(cfg, s, e) && entry == Timed(Stamp(s, e), NewServerInfo(e.packet.msg))
  }

  lemma AddStores(cfg: Config, s: State, e: Event, msg: ServerAdd, start: nat)
    requires e.packet == AddRequest(msg) && e.WellTimed(start) && WithinQuota(cfg.maxServersPerIp, s.servers, start)
    requires e.from.ip !in s.blocklist && Step(cfg, s, e).1 != []
    ensures var m := Step(cfg, s, e).0.servers.entries; e.from in m ==> Stores(cfg, s, e, e.from, m[e.from])
  {
    ClockIsMonotone(e, start, 2, 3);
    ClockIsMonotone(e, start, 3, 4);
    ClockIsMonotone(e, start, 4, 5);
    RegistersIff(cfg, s, e, msg);
    var info, t := NewServerInfo(msg), (e.Now(2), e.Now(3), e.Now(4), e.Now(5));
    if e.from in AddServer(cfg, s.servers, e.from, info, t).entries {
      AddedIsAdmissible(cfg, s.servers, e.from, info, t, start);
    }
  }

  /** Any other packet, or a registration of another server, at most removes entries. */
  lemma OthersStoreNothing(cfg: Config, s: State, e: Event, a: Addr)
    requires a in Step(cfg, s, e).0.servers.entries
    requires !(e.packet.AddRequest? && e.from == a && Step(cfg, s, e).1 != [])
    ensures a in s.servers.entries && Step(cfg, s, e).0.servers.entries[a] == s.servers.entries[a]
    ensures forall act | act in Step(cfg, s, e).1 :: !(act.Registered? && act.addr == a)
  {
    forall act | act in Step(cfg, s, e).1 && act.Registered?
      ensures act.addr == e.from && e.packet.AddRequest?
    {
      OnlyAddRequestsRegister(cfg, s, e, act);
    }
    StepOnlyRemoves(cfg, s, e, a);
  }

  lemma StepOnlyRemoves(cfg: Config, s: State, e: Event, a: Addr)
    requires a in Step(cfg, s, e).0.servers.entries
    requires !(e.packet.AddRequest? && e.from == a && Step(cfg, s, e).1 != [])
    ensures a in s.servers.entries && Step(cfg, s, e).0.servers.entries[a] == s.servers.entries[a]
  {
    if e.from.ip !in s.blocklist && e.packet.AddRequest? {
      var info, t := NewServerInfo(e.packet.msg), (e.Now(2), e.Now(3), e.Now(4), e.Now(5));
      if a in AddServer(cfg, s.servers, e.from, info, t).entries {
        AddedEntries(cfg, s.servers, e.from, info, t, a);
      }
    } else if e.packet.AdminCommand? && e.packet.command.Ban? {
      BanOnlyRemoves(s, e.packet.command.ips, e, 2);
    }
  }

  /** One step: a stored server was stored before and is left alone, or the step stores it anew. */
  lemma StepStores(cfg: Config, s: State, e: Event, start: nat, a: Addr)
    requires NoneBlocked(s) && WithinQuota(cfg.maxServersPerIp, s.servers, start) && e.WellTimed(start)
    requires a in Step(cfg, s, e).0.servers.entries
    ensures var entry := Step(cfg, s, e).0.servers.entries[a];
            || (a in s.servers.entries && entry == s.servers.entries[a] && LeavesAlone(cfg, s, e, a))
            || Stores(cfg, s, e, a, entry)
  {
    StepKeepsSafety(cfg, s, e, start);
    if e.packet.AddRequest? && e.from == a && Step(cfg, s, e).1 != [] {
      AddStores(cfg, s, e, e.packet.msg, start);
    } else {
      OthersStoreNothing(cfg, s, e, a);
    }
  }

  /** Event `k` is where the stored entry of `a` comes from. */
  predicate StoredFrom(cfg: Config, events: seq<Event>, k: nat, a: Addr, msg: ServerAdd, entry: Timed<ServerInfo>) {
    && k < |events| && RegistersAt(cfg, events, k, a, msg) && LeftAlone(cfg, events, k + 1, a)
    && entry == Timed(StampAt(cfg, events, k), NewServerInfo(msg))
  }

  lemma PrefixOfFront(events: seq<Event>, i: nat)
    requires i < |events|
    ensures Front(events)[..i] == events[..i]
  {
  }

  lemma LeftAloneLonger(cfg: Config, events: seq<Event>, k: nat, a: Addr)
    requires events != [] && LeftAlone(cfg, Front(events), k, a)
    requires LeavesAlone(cfg, Run(cfg, Front(events)).0, Last(events), a)
    ensures LeftAlone(cfg, events, k, a)
  {
    forall i | k <= i < |events|
      ensures LeavesAlone(cfg, Run(cfg, events[..i]).0, events[i], a)
    {
      PrefixOfFront(events, i);
      if i < |events| - 1 {
        assert LeavesAlone(cfg, Run(cfg, Front(events)[..i]).0, Front(events)[i], a);
      } else {
        assert events[..i] == Front(events);
      }
    }
  }

  lemma StoredFromLonger(cfg: Config, events: seq<Event>, k: nat, a: Addr, msg: ServerAdd, entry: Timed<ServerInfo>)
    requires events != [] && StoredFrom(cfg, Front(events), k, a, msg, entry)
    requires LeavesAlone(cfg, Run(cfg, Front(events)).0, Last(events), a)
    ensures StoredFrom(cfg, events, k, a, msg, entry)
  {
    PrefixOfFront(events, k);
    LeftAloneLonger(cfg, events, k + 1, a);
  }

  /** Every stored server is known by one of the registrations of the run. */
  lemma {:induction false} StoredIsKnown(cfg: Config, events: seq<Event>, a: Addr) returns (k: nat, msg: ServerAdd)
    requires WellTimedRun(events) && a in Run(cfg, events).0.servers.entries
    ensures StoredFrom(cfg, events, k, a, msg, Run(cfg, events).0.servers.entries[a])
  {
    if events != [] {
      var front, e := Front(events), Last(events);
      var s := Run(cfg, front).0;
      ReachableStatesAreSafe(cfg, front);
      StepStores(cfg, s, e, EndOf(front), a);
      var entry := Step(cfg, s, e).0.servers.entries[a];
      if a in s.servers.entries && entry == s.servers.entries[a] && LeavesAlone(cfg, s, e, a) {
        k, msg := StoredIsKnown(cfg, front, a);
        StoredFromLonger(cfg, events, k, a, msg, entry);
      } else {
        k, msg := |front|, e.packet.msg;
        assert events[..k] == front;
      }
    }
  }

  // What clients are answered

  /** Server `a` is known at `now`, and the query asks for details like those it is known with. */
  ghost predicate ShouldBeListed(cfg: Config, events: seq<Event>, query: ServerQuery, a: Addr, now: nat) {
    exists k, msg :: KnownSince(cfg, events, k, a, msg, now) && Asked(query, msg)
  }

  /** The same for servers that are behind NAT. */
  ghost predicate ShouldBeTold(cfg: Config, events: seq<Event>, query: ServerQuery, a: Addr, now: nat) {
    exists k, msg :: KnownSince(cfg, events, k, a, msg, now) && Asked(query, msg) && SfNat in msg.flags
  }

  lemma KnownIsAnswered(cfg: Config, events: seq<Event>, query: ServerQuery, k: nat, a: Addr, msg: ServerAdd, now: nat)
    requires WellTimedRun(events) && EndOf(events) <= now && query.filter.clver.Some?
    ensures KnownSince(cfg, events, k, a, msg, now) && Asked(query, msg) ==>
              && a in Answer(Run(cfg, events).0, query, now)
              && (SfNat in msg.flags ==> a in NatServers(Run(cfg, events).0, query, now))
  {
    KnownIsStored(cfg, events, k, a, msg, now);
    AskedIff(query, msg);
    FilterFlagsIff(msg, FfNat);
  }

  lemma AnsweredIsKnown(cfg: Config, events: seq<Event>, query: ServerQuery, a: Addr, now: nat)
    requires WellTimedRun(events) && EndOf(events) <= now && query.filter.clver.Some?
    requires a in Answer(Run(cfg, events).0, query, now)
    ensures ShouldBeListed(cfg, events, query, a, now)
    ensures a in NatServers(Run(cfg, events).0, query, now) ==> ShouldBeTold(cfg, events, query, a, now)
  {
    var k, msg := StoredIsKnown(cfg, events, a);
    ServersTimeoutIsFixed(cfg, events);
    ValidIffWithinTimeout(StampAt(cfg, events, k), now, cfg.serverTimeout);
    AskedIff(query, msg);
    FilterFlagsIff(msg, FfNat);
    assert KnownSince(cfg, events, k, a, msg, now);
  }

  /** The answer of the specification is exactly what should be listed. */
  lemma AnswerIff(cfg: Config, events: seq<Event>, query: ServerQuery, a: Addr, now: nat)
    requires WellTimedRun(events) && EndOf(events) <= now && query.filter.clver.Some?
    ensures a in Answer(Run(cfg, events).0, query, now) <==> ShouldBeListed(cfg, events, query, a, now)
    ensures a in NatServers(Run(cfg, events).0, query, now) <==> ShouldBeTold(cfg, events, query, a, now)
  {
    if ShouldBeListed(cfg, events, query, a, now) {
      var k, msg :| KnownSince(cfg, events, k, a, msg, now) && Asked(query, msg);
      KnownIsAnswered(cfg, events, query, k, a, msg, now);
    }
    if ShouldBeTold(cfg, events, query, a, now) {
      var k, msg :| KnownSince(cfg, events, k, a, msg, now) && Asked(query, msg) && SfNat in msg.flags;
      KnownIsAnswered(cfg, events, query, k, a, msg, now);
    }
    if a in Answer(Run(cfg, events).0, query, now) {
      AnsweredIsKnown(cfg, events, query, a, now);
    }
  }

  /** The actions answer the sender of `e` with one list, of exactly the servers that should be listed to a client that
      is served and of the fake server otherwise. */
  ghost predicate AnsweredRightly(cfg: Config, events: seq<Event>, e: Event, query: ServerQuery, actions: seq<Action>) {
    && |actions| > 1 && actions[1].Listed? && (forall i | 0 <= i < |actions| :: actions[i].Listed? ==> i == 1)
    && actions[1].to == e.from && actions[1].key == query.filter.key
    && forall a :: a in actions[1].listed <==>
         if Served(cfg, query.filter) then ShouldBeListed(cfg, events, query, a, e.Now(2)) else a == cfg.updateAddr
  }

  /** They announce the sender to exactly those of the listed servers that are behind NAT. */
  ghost predicate AnnouncedRightly(cfg: Config, events: seq<Event>, e: Event, query: ServerQuery, actions: seq<Action>) {
    && (forall i | 0 <= i < |actions| :: actions[i].Announced? ==>
          actions[i].client == e.from
          && forall a :: a in actions[i].servers <==> ShouldBeTold(cfg, events, query, a, e.Now(2)))
    && ((exists i | 0 <= i < |actions| :: actions[i].Announced?) <==>
        Served(cfg, query.filter) && WantsNat(query.filter))
  }

  /** Main result: over any run, every query that the rate limiter lets in gets one list in answer, with its own key.
      A client that is served gets every server that is known with details that it asks for, and nothing else; any
      other client gets the fake server alone. */
  lemma QueriesAreAnswered(cfg: Config, events: seq<Event>, e: Event, query: ServerQuery)
    requires WellTimedRun(events) && e.WellTimed(EndOf(events)) && e.packet == QueryServers(Some(query))
    requires GameAccepted(e.from.ip, e.Now(0)) in Step(cfg, Run(cfg, events).0, e).1
    ensures AnsweredRightly(cfg, events, e, query, Step(cfg, Run(cfg, events).0, e).1)
  {
    QueryActions(cfg, Run(cfg, events).0, e, query);
    ClockIsMonotone(e, EndOf(events), 0, 2);
    if Served(cfg, query.filter) {
      forall a
        ensures a in Answer(Run(cfg, events).0, query, e.Now(2)) <==> ShouldBeListed(cfg, events, query, a, e.Now(2))
      {
        AnswerIff(cfg, events, query, a, e.Now(2));
      }
    }
  }

  /** And unless its filter excludes servers behind NAT, a client that is served is announced to those listed. */
  lemma ClientsAreAnnounced(cfg: Config, events: seq<Event>, e: Event, query: ServerQuery)
    requires WellTimedRun(events) && e.WellTimed(EndOf(events)) && e.packet == QueryServers(Some(query))
    requires GameAccepted(e.from.ip, e.Now(0)) in Step(cfg, Run(cfg, events).0, e).1
    ensures AnnouncedRightly(cfg, events, e, query, Step(cfg, Run(cfg, events).0, e).1)
  {
    var actions := Step(cfg, Run(cfg, events).0, e).1;
    QueryActions(cfg, Run(cfg, events).0, e, query);
    ClockIsMonotone(e, EndOf(events), 0, 2);
    if Served(cfg, query.filter) {
      forall a
        ensures a in NatServers(Run(cfg, events).0, query, e.Now(2)) <==> ShouldBeTold(cfg, events, query, a, e.Now(2))
      {
        AnswerIff(cfg, events, query, a, e.Now(2));
      }
      assert WantsNat(query.filter) ==> actions[2].Announced?;
    }
  }

  /** The list names each of the servers once that should be listed to the sender of the query. */
  ghost predicate IsRightList(cfg: Config, events: seq<Event>, e: Event, query: ServerQuery, list: seq<Addr>) {
    && NoRepeats(list)
    && forall a :: a in list <==>
         if Served(cfg, query.filter) then ShouldBeListed(cfg, events, query, a, e.Now(2)) else a == cfg.updateAddr
  }

  /** All the way to the client: what it reads out of the packets that carry an answer is exactly the servers that
      should be listed to it, each of them once, if it sent a key or no server looks like one. */
  lemma AnswersReachClients(
      f: Family, cfg: Config, events: seq<Event>, e: Event, act: Action, packets: seq<bytes>)
    requires WellTimedRun(events) && e.WellTimed(EndOf(events))
    requires f.Fits(cfg.updateAddr) && forall e | e in events :: f.Fits(e.from)
    requires act.Listed? && act in Step(cfg, Run(cfg, events).0, e).1 && Carries(f, act.key, act.listed, packets)
    requires act.key.Some? || forall a | a in act.listed :: SafeStart(a)
    ensures e.packet.QueryServers? && e.packet.query.Some? && act.key == e.packet.query.value.filter.key
    ensures IsRightList(cfg, events, e, e.packet.query.value, Received(f, packets))
  {
    var s := Run(cfg, events).0;
    ListedIsAnswer(cfg, s, e, act);
    QueryActions(cfg, s, e, e.packet.query.value);
    QueriesAreAnswered(cfg, events, e, e.packet.query.value);
    RunKeepsFit(f, cfg, events);
    AnswerArrives(f, act.key, act.listed, packets);
    assert forall a :: a in Received(f, packets) <==> a in act.listed;
  }

  // The shortest run in which a server is listed

  lemma RunOfOne(cfg: Config, e: Event)
    requires e.WellTimed(0)
    ensures Run(cfg, [e]) == Step(cfg, Init(cfg), e)
    ensures WellTimedRun([e]) && EndOf([e]) == e.End()
  {
    assert [e][..0] == [] && [] + Step(cfg, Init(cfg), e).1 == Step(cfg, Init(cfg), e).1;
    assert Run(cfg, []) == (Init(cfg), []) && EndOf([]) == 0 && WellTimedRun([]);
  }

  /** The two packets of a registration. */
  function Asking(a: Addr, number: u32): Event {
    Event(a, ChallengeRequest, [0], (number, 0))
  }

  function Adding(a: Addr, msg: ServerAdd): Event {
    Event(a, AddRequest(msg), [0], (0, 0))
  }

  /** Then a client asks for servers. */
  function Querying(client: Addr, query: ServerQuery): Event {
    Event(client, QueryServers(Some(query)), [0], (0, 0))
  }

  lemma FirstChallenge(cfg: Config, a: Addr, number: u32)
    ensures var (s, actions) := Step(cfg, Init(cfg), Asking(a, number));
            && s.challenges.entries == map[a := Timed(0, number)] && s.challenges.timeout == cfg.challengeTimeout
            && s.servers == Empty(cfg.serverTimeout) && s.blocklist == {}
            && actions == [ChallengeIssued(a, number, 0), ChallengeSent(a, number, 0)]
  {
  }

  lemma RegistrationRun(cfg: Config, a: Addr, msg: ServerAdd)
    requires cfg.challengeTimeout > 0 && cfg.serverTimeout > 0 && cfg.maxServersPerIp > 0
    requires VersionNumber(cfg.serverMinVersion) <= VersionNumber(msg.version)
    ensures var events := [Asking(a, msg.challenge), Adding(a, msg)];
            && WellTimedRun(events) && EndOf(events) == 0 && Run(cfg, events).0.blocklist == {}
            && KnownSince(cfg, events, 1, a, msg, 0)
  {
    var ask, add := Asking(a, msg.challenge), Adding(a, msg);
    var events := [ask, add];
    assert events[..1] == [ask];
    RunOfOne(cfg, ask);
    var s := Run(cfg, [ask]).0;
    FirstChallenge(cfg, a, msg.challenge);
    RegistersIff(cfg, s, add, msg);
    assert LiveServersOf(s.servers, a.ip, 0) == {};
  }

  /** A server asks for a challenge and returns it with its details; a client that is served and asks for such a server
      is told about it. */
  lemma NewServerIsListed(cfg: Config, a: Addr, msg: ServerAdd, client: Addr, query: ServerQuery)
    requires cfg.challengeTimeout > 0 && cfg.serverTimeout > 0 && cfg.maxServersPerIp > 0
    requires VersionNumber(cfg.serverMinVersion) <= VersionNumber(msg.version)
    requires Served(cfg, query.filter) && Asked(query, msg)
    ensures var log := Run(cfg, [Asking(a, msg.challenge), Adding(a, msg), Querying(client, query)]).1;
            exists act | act in log :: act.Listed? && act.to == client && act.key == query.filter.key && a in act.listed
  {
    var events, e := [Asking(a, msg.challenge), Adding(a, msg)], Querying(client, query);
    var all := [Asking(a, msg.challenge), Adding(a, msg), e];
    RegistrationRun(cfg, a, msg);
    NoGameRequests(events, client.ip);
    QuietClientsAreServed(cfg, events, e);
    QueriesAreAnswered(cfg, events, e, query);
    assert ShouldBeListed(cfg, events, query, a, 0);
    assert all[..2] == events;
    assert Step(cfg, Run(cfg, events).0, e).1[1] in Run(cfg, all).1;
  }

  lemma {:induction false} NoGameRequests(events: seq<Event>, ip: Ip)
    requires forall e | e in events :: !IsGameRequest(e, ip)
    ensures forall time: int :: RequestsSince(events, ip, time) == 0
  {
    if events != [] {
      NoGameRequests(Front(events), ip);
    }
  }

  lemma {:induction false} RunIsTimed(events: seq<Event>, k: nat)
    requires WellTimedRun(events) && k <= |events|
    ensures WellTimedRun(events[..k])
    ensures k > 0 ==> events[k - 1].WellTimed(EndOf(events[..k - 1]))
  {
    if k == |events| {
      assert events[..k] == events;
    } else {
      var front := events[..|events| - 1];
      RunIsTimed(front, k);
      assert front[..k] == events[..k] && (k > 0 ==> front[..k - 1] == events[..k - 1]);
    }
  }

  lemma {:induction false} EndsGrow(events: seq<Event>, k: nat)
    requires WellTimedRun(events) && k <= |events|
    ensures EndOf(events[..k]) <= EndOf(events)
  {
    if k == |events| {
      assert events[..k] == events;
    } else {
      var last := |events| - 1;
      EndsGrow(events[..last], k);
      assert events[..last][..k] == events[..k];
      ClockIsMonotone(events[last], EndOf(events[..last]), 0, 0);
    }
  }
}
