/** The master server as the source runs it: handlers that update six timed maps and a block list in
    place, one packet at a time (crates/xash3d-master/src/master_server.rs). */
module MasterServers {
  import opened Prelude
  import opened Types
  import opened Utf8
  import opened TimedMap
  import opened TimedHashMaps
  import opened Registry
  import ServerList
  import opened ServerAnswers

  ghost function Footprint<K, V>(m: TimedHashMap<K, V>): set<object> {
    {m, m.periodic}
  }

  ghost predicate Apart<K, V, L, W>(a: TimedHashMap<K, V>, b: TimedHashMap<L, W>) {
    a as object != b as object && a.periodic != b.periodic
  }

  lemma ApartIsDisjoint<K, V, L, W>(a: TimedHashMap<K, V>, b: TimedHashMap<L, W>)
    requires Apart(a, b)
    ensures Footprint(a) !! Footprint(b)
  {
  }

  class MasterServer {
    const cfg: Config
    const family: Family
    const challenges: TimedHashMap<Addr, u32>
    const servers: TimedHashMap<Addr, ServerInfo>
    const adminChallenges: TimedHashMap<Ip, (u32, u32)>
    const adminLimit: TimedHashMap<Ip, ()>
    const updateGamedir: TimedHashMap<Addr, bytes>
    const clientRate: TimedHashMap<Ip, u32>
    var blocklist: set<Ip>

    ghost function Parts(): set<object> {
      Footprint(challenges) + Footprint(servers) + Footprint(adminChallenges) +
      Footprint(adminLimit) + Footprint(updateGamedir) + Footprint(clientRate)
    }

    ghost predicate Valid()
      reads Parts()
    {
      && family.Fits(cfg.updateAddr)
      && challenges.Valid() && servers.Valid() && adminChallenges.Valid()
      && adminLimit.Valid() && updateGamedir.Valid() && clientRate.Valid()
      && Footprint(challenges) !! Footprint(servers)
      && Footprint(challenges) !! Footprint(adminChallenges)
      && Footprint(challenges) !! Footprint(adminLimit)
      && Footprint(challenges) !! Footprint(updateGamedir)
      && Footprint(challenges) !! Footprint(clientRate)
      && Footprint(servers) !! Footprint(adminChallenges)
      && Footprint(servers) !! Footprint(adminLimit)
      && Footprint(servers) !! Footprint(updateGamedir)
      && Footprint(servers) !! Footprint(clientRate)
      && Footprint(adminChallenges) !! Footprint(adminLimit)
      && Footprint(adminChallenges) !! Footprint(updateGamedir)
      && Footprint(adminChallenges) !! Footprint(clientRate)
      && Footprint(adminLimit) !! Footprint(updateGamedir)
      && Footprint(adminLimit) !! Footprint(clientRate)
      && Footprint(updateGamedir) !! Footprint(clientRate)
    }

    ghost function State(): State
      reads this, Parts()
    {
      Registry.State.State(challenges.Contents(), servers.Contents(), adminChallenges.Contents(), adminLimit.Contents(),
            updateGamedir.Contents(), clientRate.Contents(), blocklist)
    }

    /** The update address is resolved to one of the server's own family. */
    constructor (cfg: Config, family: Family)
      requires family.Fits(cfg.updateAddr)
      ensures Valid() && this.cfg == cfg && this.family == family
      ensures fresh(challenges) && fresh(challenges.periodic) && fresh(servers) && fresh(servers.periodic)
      ensures fresh(adminChallenges) && fresh(adminChallenges.periodic) && fresh(adminLimit) && fresh(adminLimit.periodic)
      ensures fresh(updateGamedir) && fresh(updateGamedir.periodic) && fresh(clientRate) && fresh(clientRate.periodic)
      ensures State() == Init(cfg)
    {
      this.cfg, this.family := cfg, family;
      challenges := new TimedHashMap(cfg.challengeTimeout);
      servers := new TimedHashMap(cfg.serverTimeout);
      adminChallenges := new TimedHashMap(cfg.challengeTimeout);
      adminLimit := new TimedHashMap(cfg.adminTimeout);
      updateGamedir := new TimedHashMap(5);
      clientRate := new TimedHashMap(1);
      blocklist := {};
      new;
      ApartIsDisjoint(challenges, servers);
      ApartIsDisjoint(challenges, adminChallenges);
      ApartIsDisjoint(challenges, adminLimit);
      ApartIsDisjoint(challenges, updateGamedir);
      ApartIsDisjoint(challenges, clientRate);
      ApartIsDisjoint(servers, adminChallenges);
      ApartIsDisjoint(servers, adminLimit);
      ApartIsDisjoint(servers, updateGamedir);
      ApartIsDisjoint(servers, clientRate);
      ApartIsDisjoint(adminChallenges, adminLimit);
      ApartIsDisjoint(adminChallenges, updateGamedir);
      ApartIsDisjoint(adminChallenges, clientRate);
      ApartIsDisjoint(adminLimit, updateGamedir);
      ApartIsDisjoint(adminLimit, clientRate);
      ApartIsDisjoint(updateGamedir, clientRate);
    }

    method HandleServerChallenge(e: Event) returns (actions: seq<Action>)
      requires Valid()
      modifies Footprint(challenges)
      ensures Valid() && (State(), actions) == HandleChallenge(old(State()), e)
    {
      var entry := challenges.Entry(e.from, e.Now(0));
      match entry
      case Some(c) =>
        actions := [ChallengeSent(e.from, c.value, e.Now(0))];
      case None =>
        challenges.Put(e.from, Timed(e.Now(1), e.random.0));
        actions := [ChallengeIssued(e.from, e.random.0, e.Now(1)), ChallengeSent(e.from, e.random.0, e.Now(1))];
    }

    method CountServers(ip: Ip, now: nat) returns (count: u16)
      requires Valid()
      ensures count == Registry.CountServers(servers.Contents(), ip, now)
    {
      var items := servers.Iter(now);
      var live := set a | a in items && a.ip == ip;
      assert live == LiveServersOf(servers.Contents(), ip, now);
      count := |live| % 0x1_0000;
    }

    method AddServer(addr: Addr, info: ServerInfo, t: (nat, nat, nat, nat))
      requires Valid()
      modifies Footprint(servers)
      ensures Valid() && servers.Contents() == Registry.AddServer(cfg, old(servers.Contents()), addr, info, t)
    {
      var entry := servers.Entry(addr, t.0);
      if entry.Some? {
        servers.Put(addr, Timed(t.1, info));
      } else {
        var count := CountServers(addr.ip, t.1);
        if count >= cfg.maxServersPerIp {
          return;
        }
        servers.Insert(addr, info, t.2, t.3);
      }
    }

    method HandleServerAdd(e: Event, msg: ServerAdd) returns (actions: seq<Action>)
      requires Valid()
      modifies Footprint(challenges), Footprint(servers)
      ensures Valid() && (State(), actions) == Registry.HandleServerAdd(cfg, old(State()), e, msg)
    {
      actions := [];
      if VersionLess(msg.version, cfg.serverMinVersion) {
        return;
      }
      var challenge := challenges.Get(e.from, e.Now(0));
      if challenge.None? || msg.challenge != challenge.value.value {
        return;
      }
      var removed := challenges.Remove(e.from, e.Now(1));
      if removed.Some? {
        AddServer(e.from, NewServerInfo(msg), (e.Now(2), e.Now(3), e.Now(4), e.Now(5)));
        actions := [Registered(e.from, msg.challenge, e.Now(1), msg)];
      }
    }

    method AllowGameRequest(ip: Ip, t: (nat, nat)) returns (allowed: bool)
      requires Valid()
      modifies Footprint(clientRate)
      ensures Valid() && (clientRate.Contents(), allowed) == Registry.AllowGameRequest(cfg, old(clientRate.Contents()), ip, t)
    {
      if cfg.clientRateLimit == 0 {
        return true;
      }
      var entry := clientRate.Entry(ip, t.0);
      var counter := if entry.Some? then entry.value else Timed(t.1, 0);
      counter := counter.(value := SaturatingInc(counter.value));
      clientRate.Put(ip, counter);
      allowed := counter.value <= cfg.clientRateLimit;
    }

    method SaveClientGamedir(e: Event, gamedir: Option<bytes>)
      requires Valid()
      modifies Footprint(updateGamedir)
      ensures Valid() && State() == Registry.SaveClientGamedir(old(State()), e, gamedir)
    {
      if gamedir.None? || !IsUtf8(gamedir.value) || |gamedir.value| > GAMEDIR_MAX_SIZE {
        return;
      }
      updateGamedir.Insert(e.from, gamedir.value, e.Now(2), e.Now(3));
    }

    /** The addresses a valid query is answered with, in whatever order the map yields them, and those of
        them to announce the client to. */
    method SelectServers(query: ServerQuery, now: nat) returns (filtered: seq<Addr>, filteredNat: seq<Addr>)
      requires Valid() && query.filter.clver.Some?
      ensures forall i, j | 0 <= i < j < |filtered| :: filtered[i] != filtered[j]
      ensures (set a | a in filtered) == Answer(State(), query, now)
      ensures forall i, j | 0 <= i < j < |filteredNat| :: filteredNat[i] != filteredNat[j]
      ensures (set a | a in filteredNat)
           == set a | a in Answer(State(), query, now) && FfNat in servers.entries[a].value.flags
    {
      filtered, filteredNat := [], [];
      var items := servers.Iter(now);
      var left := items.Keys;
      while left != {}
        invariant left <= items.Keys
        invariant forall i, j | 0 <= i < j < |filtered| :: filtered[i] != filtered[j]
        invariant forall i, j | 0 <= i < j < |filteredNat| :: filteredNat[i] != filteredNat[j]
        invariant forall a :: a in filtered <==> a in items && a !in left && Selected(query, items[a].value)
        invariant forall a :: a in filteredNat <==> a in filtered && FfNat in items[a].value.flags
      {
        var a :| a in left;
        left := left - {a};
        var info := items[a].value;
        if info.region != query.region || !query.filter.Matches(info) {
          continue;
        }
        if VersionLess(query.filter.clver.value, Version(0, 20, 0)) && info.protocol != 48 {
          continue;
        }
        filtered := filtered + [a];
        if FfNat in info.flags {
          filteredNat := filteredNat + [a];
        }
      }
    }

    /** Sends a list in packets. */
    method SendServers(key: Option<u32>, list: seq<Addr>, ghost listed: set<Addr>) returns (packets: seq<bytes>)
      requires Valid() && ServerList.AllOf(family, list) && IsListOf(list, listed)
      ensures Carries(family, key, listed, packets)
    {
      ServerList.RealBuffers(key);
      var r, sent := ServerList.SendServerList(family, key, family.BufferSize(), list);
      packets := sent;
    }

    /** Answers a query; `packets` go back to the client, and the client is announced to `announced`. */
    method HandleQuery(e: Event, query: ServerQuery) returns (actions: seq<Action>, packets: seq<bytes>)
      requires Valid() && ServersFit(family, State())
      modifies Footprint(updateGamedir)
      ensures Valid() && (State(), actions) == Registry.HandleQuery(cfg, old(State()), e, query)
      ensures actions != [] && actions[0].Listed? && Carries(family, actions[0].key, actions[0].listed, packets)
    {
      if !IsQueryValid(cfg, query) {
        SaveClientGamedir(e, query.filter.gamedir);
        packets := SendServers(query.filter.key, [cfg.updateAddr], {cfg.updateAddr});
        return [Listed(e.from, query.filter.key, {cfg.updateAddr})], packets;
      }
      var filtered, filteredNat := SelectServers(query, e.Now(2));
      var listed, nat_ := set a | a in filtered, set a | a in filteredNat;
      assert forall a | a in filtered :: a in listed && a in servers.entries;
      packets := SendServers(query.filter.key, filtered, listed);
      actions := [Listed(e.from, query.filter.key, listed)];
      if query.filter.ContainsFlags({FfNat}) != Some(false) {
        actions := actions + [Announced(e.from, nat_)];
      } else {
        assert actions + [] == actions;
      }
    }

    method HandleGetServerInfo(e: Event, protocol: byte) returns (actions: seq<Action>)
      requires Valid()
      modifies Footprint(updateGamedir)
      ensures Valid() && (State(), actions) == Registry.HandleGetServerInfo(old(State()), e, protocol)
    {
      var gamedir := updateGamedir.Remove(e.from, e.Now(2));
      actions := [UpdateSent(e.from, protocol, if gamedir.Some? then gamedir.value.value else Ascii("valve"))];
    }

    method HandleGameRequest(e: Event) returns (actions: seq<Action>, packets: seq<bytes>)
      requires Valid() && ServersFit(family, State()) && (e.packet.QueryServers? || e.packet.GetServerInfo?)
      modifies Footprint(clientRate), Footprint(updateGamedir)
      ensures Valid() && (State(), actions) == Registry.HandleGameRequest(cfg, old(State()), e)
      ensures forall a | a in actions && a.Listed? :: Carries(family, a.key, a.listed, packets)
    {
      packets := [];
      var allowed := AllowGameRequest(e.from.ip, (e.Now(0), e.Now(1)));
      if !allowed {
        return [], packets;
      }
      var more: seq<Action> := [];
      match e.packet {
        case QueryServers(Some(query)) => more, packets := HandleQuery(e, query);
        case GetServerInfo(Some(protocol)) => more := HandleGetServerInfo(e, protocol);
        case _ =>
      }
      actions := [GameAccepted(e.from.ip, e.Now(0))] + more;
    }

    method AllowAdminRequest(e: Event) returns (allowed: bool)
      requires Valid()
      ensures allowed == AdminAllowed(State(), e)
    {
      var limited := adminLimit.Get(e.from.ip, e.Now(0));
      allowed := limited.None?;
    }

    method HandleAdminChallenge(e: Event) returns (actions: seq<Action>)
      requires Valid()
      modifies Footprint(adminChallenges)
      ensures Valid() && (State(), actions) == Registry.HandleAdminChallenge(old(State()), e)
    {
      var allowed := AllowAdminRequest(e);
      if !allowed {
        return [];
      }
      adminChallenges.Insert(e.from.ip, e.random, e.Now(1), e.Now(2));
      actions := [AdminIssued(e.from.ip, e.random.0, e.random.1, e.Now(1))];
    }

    method FindAdmin(hash: bytes, salt: u32) returns (found: bool)
      ensures found == HashMatches(cfg, hash, salt)
    {
      for i := 0 to |cfg.passwords|
        invariant forall j | 0 <= j < i :: cfg.hash(cfg.passwords[j], salt) != hash
      {
        if cfg.hash(cfg.passwords[i], salt) == hash {
          return true;
        }
      }
      found := false;
    }

    method RemoveServersByIp(ip: Ip, now: nat)
      requires Valid()
      modifies Footprint(servers)
      ensures Valid() && servers.Contents() == Retain(old(servers.Contents()), (a: Addr, _) => a.ip != ip, now)
    {
      servers.Retain((a: Addr, _) => a.ip != ip, now);
    }

    method BanOne(ip: Ip, now: nat)
      requires Valid()
      modifies this, Footprint(servers)
      ensures Valid() && State() == BanIp(old(State()), ip, now)
    {
      if ip !in blocklist {
        blocklist := blocklist + {ip};
        RemoveServersByIp(ip, now);
      }
    }

    method BanEach(ips: seq<Option<Ip>>, e: Event)
      requires Valid()
      modifies this, Footprint(servers)
      ensures Valid() && State() == BanAll(old(State()), ips, e, 2)
    {
      for i := 0 to |ips|
        invariant Valid() && BanAll(State(), ips[i..], e, i + 2) == BanAll(old(State()), ips, e, 2)
      {
        assert ips[i..][1..] == ips[i + 1..];
        if ips[i].Some? {
          BanOne(ips[i].value, e.Now(i + 2));
        }
      }
    }

    method AdminCommand(command: Command, e: Event)
      requires Valid()
      modifies this, Footprint(servers)
      ensures Valid() && State() == RunCommand(old(State()), command, e)
    {
      match command
      case Ban(ips) => BanEach(ips, e);
      case Unban(ips) =>
        for i := 0 to |ips|
          invariant Valid() && State() == old(State()).(blocklist := blocklist)
          invariant UnbanAll(blocklist, ips[i..]) == UnbanAll(old(blocklist), ips)
        {
          assert ips[i..][1..] == ips[i + 1..];
          if ips[i].Some? {
            blocklist := blocklist - {ips[i].value};
          }
        }
      case InvalidCommand =>
    }

    method RunIfAuthorised(e: Event, salt: u32) returns (actions: seq<Action>)
      requires Valid() && e.packet.AdminCommand?
      modifies this, Footprint(servers), Footprint(adminChallenges), Footprint(adminLimit)
      ensures Valid() && (State(), actions) == Registry.RunIfAuthorised(cfg, old(State()), e, salt)
    {
      var found := FindAdmin(e.packet.hash, salt);
      if !found {
        adminLimit.Insert(e.from.ip, (), e.Now(2), e.Now(3));
        return [];
      }
      AdminCommand(e.packet.command, e);
      var removed := adminChallenges.Remove(e.from.ip, e.Now(2));
      actions := [CommandRun(e.from.ip, e.packet.masterChallenge, salt, e.Now(1))];
    }

    method HandleAdminCommand(e: Event) returns (actions: seq<Action>)
      requires Valid() && e.packet.AdminCommand?
      modifies this, Footprint(servers), Footprint(adminChallenges), Footprint(adminLimit)
      ensures Valid() && (State(), actions) == Registry.HandleAdminCommand(cfg, old(State()), e)
    {
      var allowed := AllowAdminRequest(e);
      if !allowed {
        return [];
      }
      var entry := adminChallenges.Get(e.from.ip, e.Now(1));
      if entry.None? || entry.value.value.0 != e.packet.masterChallenge {
        return [];
      }
      actions := RunIfAuthorised(e, entry.value.value.1);
    }

    /** Handles one packet; `packets` is the answer to a query, if it was one. */
    method HandlePacket(e: Event) returns (actions: seq<Action>, packets: seq<bytes>)
      requires Valid() && ServersFit(family, State()) && family.Fits(e.from)
      modifies this, Parts()
      ensures Valid() && ServersFit(family, State()) && (State(), actions) == Step(cfg, old(State()), e)
      ensures forall a | a in actions && a.Listed? :: Carries(family, a.key, a.listed, packets)
    {
      actions, packets := [], [];
      StepKeepsFit(family, cfg, State(), e);
      if e.from.ip in blocklist {
        return;
      }
      match e.packet
      case ChallengeRequest => actions := HandleServerChallenge(e);
      case AddRequest(msg) => actions := HandleServerAdd(e, msg);
      case QueryServers(_) => actions, packets := HandleGameRequest(e);
      case GetServerInfo(_) => actions, packets := HandleGameRequest(e);
      case AdminChallenge => actions := HandleAdminChallenge(e);
      case AdminCommand(_, _, _) => actions := HandleAdminCommand(e);
      case _ =>
    }

    /** The receive loop: handling the packets one by one is the run that the results are about. The socket only
        receives from addresses of its own family. */
    method RunLoop(events: seq<Event>) returns (log: seq<Action>)
      requires Valid() && State() == Init(cfg) && forall e | e in events :: family.Fits(e.from)
      modifies this, Parts()
      ensures Valid() && (State(), log) == Run(cfg, events)
    {
      log := [];
      for i := 0 to |events|
        invariant Valid() && ServersFit(family, State()) && (State(), log) == Run(cfg, events[..i])
      {
        assert events[..i + 1][..i] == events[..i];
        var actions, _ := HandlePacket(events[i]);
        log := log + actions;
      }
      assert events[..|events|] == events;
    }

    /** The part of a configuration reload that reaches the maps. */
    method UpdateTimeouts(challenge: u32, server: u32, admin: u32)
      requires Valid()
      modifies Parts()
      ensures Valid() && State() == SetTimeouts(old(State()), challenge, server, admin)
    {
      challenges.SetTimeout(challenge);
      servers.SetTimeout(server);
      adminChallenges.SetTimeout(challenge);
      adminLimit.SetTimeout(admin);
    }
  }
}
