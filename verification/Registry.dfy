/** What each packet does to the master server's state
    (crates/xash3d-master/src/master_server.rs). */
module Registry {
  import opened Prelude
  import opened Types
  import opened TimedMap
  import opened Utf8

  datatype Config = Config(
    serverMinVersion: Version, maxServersPerIp: u16, clientRateLimit: u32,
    clientMinVersion: Version, minEngineBuildnum: u32, minOldEngineBuildnum: u32,
    passwords: seq<bytes>, hash: (bytes, u32) -> bytes,
    challengeTimeout: u32, serverTimeout: u32, adminTimeout: u32, updateAddr: Addr)

  datatype State = State(
    challenges: Store<Addr, u32>,
    servers: Store<Addr, ServerInfo>,
    adminChallenges: Store<Ip, (u32, u32)>,
    adminLimit: Store<Ip, ()>,
    updateGamedir: Store<Addr, bytes>,
    clientRate: Store<Ip, u32>,
    blocklist: set<Ip>)

  function Init(cfg: Config): State {
    State(Empty(cfg.challengeTimeout), Empty(cfg.serverTimeout), Empty(cfg.challengeTimeout),
          Empty(cfg.adminTimeout), Empty(5), Empty(1), {})
  }

  /** The words after "ban" or "unban"; None is a word that is not an address. */
  datatype Command = Ban(ips: seq<Option<Ip>>) | Unban(ips: seq<Option<Ip>>) | InvalidCommand

  /** A received packet. The rate limiter sees game requests before they are decoded, so those carry the
      outcome of decoding; any other packet that fails to decode is `Undefined`. */
  datatype Packet =
    | ChallengeRequest
    | AddRequest(msg: ServerAdd)
    | RemoveRequest
    | QueryServers(query: Option<ServerQuery>)
    | GetServerInfo(protocol: Option<byte>)
    | AdminChallenge
    | AdminCommand(masterChallenge: u32, hash: bytes, command: Command)
    | Undefined

  /** One arrival: `clock` holds the successive clock readings made while handling it, and `random` the
      next two numbers of the generator. */
  datatype Event = Event(from: Addr, packet: Packet, clock: seq<nat>, random: (u32, u32))
  {
    /** The i-th reading; a handler that reads past the end sees the clock standing still. */
    function Now(i: nat): nat {
      if i < |clock| then clock[i] else End()
    }

    function End(): nat {
      if clock == [] then 0 else clock[|clock| - 1]
    }

    predicate WellTimed(start: nat) {
      clock != [] && start <= clock[0] && forall i, j | 0 <= i < j < |clock| :: clock[i] <= clock[j]
    }
  }

  /** The observable part of handling a packet. */
  datatype Action =
    | ChallengeIssued(addr: Addr, number: u32, time: nat)
    | ChallengeSent(addr: Addr, number: u32, time: nat)
    | Registered(addr: Addr, number: u32, time: nat, msg: ServerAdd)
    | GameAccepted(ip: Ip, time: nat)
    | Listed(to: Addr, key: Option<u32>, listed: set<Addr>)
    | Announced(client: Addr, servers: set<Addr>)
    | UpdateSent(to: Addr, protocol: byte, gamedir: bytes)
    | AdminIssued(ip: Ip, master: u32, salt: u32, time: nat)
    | CommandRun(ip: Ip, master: u32, salt: u32, time: nat)

  function HandleChallenge(s: State, e: Event): (State, seq<Action>) {
    var m := OpenEntry(s.challenges, e.from, e.Now(0));
    if e.from in m.entries then
      (s.(challenges := m), [ChallengeSent(e.from, m.entries[e.from].value, e.Now(0))])
    else
      var n := e.random.0;
      (s.(challenges := PutEntry(m, e.from, Timed(e.Now(1), n))),
       [ChallengeIssued(e.from, n, e.Now(1)), ChallengeSent(e.from, n, e.Now(1))])
  }

  /** Addresses of one IP whose servers are live at `now`. */
  function LiveServersOf(servers: Store<Addr, ServerInfo>, ip: Ip, now: nat): set<Addr> {
    set a | a in servers.entries && Live(servers.entries[a], now, servers.timeout) && a.ip == ip
  }

  /** `count() as u16`. */
  function CountServers(servers: Store<Addr, ServerInfo>, ip: Ip, now: nat): u16 {
    |LiveServersOf(servers, ip, now)| % 0x1_0000
  }

  function AddServer(cfg: Config, servers: Store<Addr, ServerInfo>, addr: Addr, info: ServerInfo, t: (nat, nat, nat, nat))
    : Store<Addr, ServerInfo>
  {
    var m := OpenEntry(servers, addr, t.0);
    if addr in m.entries then
      PutEntry(m, addr, Timed(t.1, info))
    else if CountServers(m, addr.ip, t.1) >= cfg.maxServersPerIp then
      m
    else
      Insert(m, addr, info, t.2, t.3)
  }

  function HandleServerAdd(cfg: Config, s: State, e: Event, msg: ServerAdd): (State, seq<Action>) {
    var known := Lookup(s.challenges.entries, e.from, e.Now(0), s.challenges.timeout);
    if VersionLess(msg.version, cfg.serverMinVersion) || known.None? || msg.challenge != known.value.value then
      (s, [])
    else
      var consumed := Lookup(s.challenges.entries, e.from, e.Now(1), s.challenges.timeout);
      var s' := s.(challenges := Remove(s.challenges, e.from));
      if consumed.None? then
        (s', [])
      else
        (s'.(servers := AddServer(cfg, s.servers, e.from, NewServerInfo(msg), (e.Now(2), e.Now(3), e.Now(4), e.Now(5)))),
         [Registered(e.from, msg.challenge, e.Now(1), msg)])
  }

  function SaturatingInc(n: u32): u32 {
    if n == 0xffff_ffff then n else n + 1
  }

  /** The rate limiter's verdict and its updated counters. */
  function AllowGameRequest(cfg: Config, rate: Store<Ip, u32>, ip: Ip, t: (nat, nat)): (Store<Ip, u32>, bool) {
    if cfg.clientRateLimit == 0 then (rate, true) else
    var m := OpenEntry(rate, ip, t.0);
    var counter := if ip in m.entries then m.entries[ip] else Timed(t.1, 0);
    var n := SaturatingInc(counter.value);
    (PutEntry(m, ip, counter.(value := n)), n <= cfg.clientRateLimit)
  }

  predicate IsQueryValid(cfg: Config, query: ServerQuery) {
    var clver := query.filter.clver;
    if clver.None? || VersionLess(clver.value, cfg.clientMinVersion) then
      false
    else
      var min := if VersionLess(clver.value, Version(0, 20, 0)) then cfg.minOldEngineBuildnum else cfg.minEngineBuildnum;
      min == 0 || (query.filter.buildnum.Some? && query.filter.buildnum.value >= min)
  }

  const GAMEDIR_MAX_SIZE := 31

  /** A rejected client's gamedir is kept for the update message when it is text that fits. */
  function SaveClientGamedir(s: State, e: Event, gamedir: Option<bytes>): State {
    if gamedir.Some? && IsUtf8(gamedir.value) && |gamedir.value| <= GAMEDIR_MAX_SIZE then
      s.(updateGamedir := Insert(s.updateGamedir, e.from, gamedir.value, e.Now(2), e.Now(3)))
    else
      s
  }

  /** The servers a valid query is answered with: live ones in its region that match its filter, where
      clients older than 0.20 only see protocol 48. */
  function Answer(s: State, query: ServerQuery, now: nat): set<Addr>
    requires query.filter.clver.Some?
  {
    set a | a in s.servers.entries && Live(s.servers.entries[a], now, s.servers.timeout)
         && Selected(query, s.servers.entries[a].value)
  }

  predicate Selected(query: ServerQuery, info: ServerInfo)
    requires query.filter.clver.Some?
  {
    && info.region == query.region
    && query.filter.Matches(info)
    && (VersionLess(query.filter.clver.value, Version(0, 20, 0)) ==> info.protocol == 48)
  }

  /** Those of them that are behind NAT. */
  function NatServers(s: State, query: ServerQuery, now: nat): set<Addr>
    requires query.filter.clver.Some?
  {
    set a | a in Answer(s, query, now) && FfNat in s.servers.entries[a].value.flags
  }

  /** An invalid query is answered with the fake server that tells the client to update. */
  function HandleQuery(cfg: Config, s: State, e: Event, query: ServerQuery): (State, seq<Action>) {
    if !IsQueryValid(cfg, query) then
      (SaveClientGamedir(s, e, query.filter.gamedir), [Listed(e.from, query.filter.key, {cfg.updateAddr})])
    else
      (s, [Listed(e.from, query.filter.key, Answer(s, query, e.Now(2)))] + Announcement(s, e, query))
  }

  /** Unless the filter excludes servers behind NAT, the client is announced to those in its answer. */
  function Announcement(s: State, e: Event, query: ServerQuery): seq<Action>
    requires query.filter.clver.Some?
  {
    if query.filter.ContainsFlags({FfNat}) == Some(false) then []
    else [Announced(e.from, NatServers(s, query, e.Now(2)))]
  }

  /** The fake server's details name the gamedir saved for the client, if that is still known. */
  function HandleGetServerInfo(s: State, e: Event, protocol: byte): (State, seq<Action>) {
    var gamedir := Lookup(s.updateGamedir.entries, e.from, e.Now(2), s.updateGamedir.timeout);
    (s.(updateGamedir := Remove(s.updateGamedir, e.from)),
     [UpdateSent(e.from, protocol, if gamedir.Some? then gamedir.value.value else Ascii("valve"))])
  }

  function HandleGameRequest(cfg: Config, s: State, e: Event): (State, seq<Action>)
    requires e.packet.QueryServers? || e.packet.GetServerInfo?
  {
    var (rate, allowed) := AllowGameRequest(cfg, s.clientRate, e.from.ip, (e.Now(0), e.Now(1)));
    var s' := s.(clientRate := rate);
    if !allowed then (s', []) else
    var (s'', actions) :=
      match e.packet
      case QueryServers(Some(query)) => HandleQuery(cfg, s', e, query)
      case GetServerInfo(Some(protocol)) => HandleGetServerInfo(s', e, protocol)
      case _ => (s', []);
    (s'', [GameAccepted(e.from.ip, e.Now(0))] + actions)
  }

  predicate AdminAllowed(s: State, e: Event) {
    Lookup(s.adminLimit.entries, e.from.ip, e.Now(0), s.adminLimit.timeout).None?
  }

  function HandleAdminChallenge(s: State, e: Event): (State, seq<Action>) {
    if !AdminAllowed(s, e) then (s, []) else
    (s.(adminChallenges := Insert(s.adminChallenges, e.from.ip, e.random, e.Now(1), e.Now(2))),
     [AdminIssued(e.from.ip, e.random.0, e.random.1, e.Now(1))])
  }

  predicate HashMatches(cfg: Config, hash: bytes, salt: u32) {
    exists i | 0 <= i < |cfg.passwords| :: cfg.hash(cfg.passwords[i], salt) == hash
  }

  function BanIp(s: State, ip: Ip, now: nat): State {
    if ip in s.blocklist then s
    else s.(blocklist := s.blocklist + {ip},
            servers := Retain(s.servers, (a: Addr, _) => a.ip != ip, now))
  }

  /** Each ban may read the clock once, starting with reading `i`. */
  function BanAll(s: State, ips: seq<Option<Ip>>, e: Event, i: nat): State
    decreases |ips|
  {
    if ips == [] then s else
    var s' := if ips[0].Some? then BanIp(s, ips[0].value, e.Now(i)) else s;
    BanAll(s', ips[1..], e, i + 1)
  }

  function UnbanAll(blocklist: set<Ip>, ips: seq<Option<Ip>>): set<Ip> {
    if ips == [] then blocklist else
    UnbanAll(if ips[0].Some? then blocklist - {ips[0].value} else blocklist, ips[1..])
  }

  function RunCommand(s: State, command: Command, e: Event): State {
    match command
    case Ban(ips) => BanAll(s, ips, e, 2)
    case Unban(ips) => s.(blocklist := UnbanAll(s.blocklist, ips))
    case InvalidCommand => s
  }

  /** A command whose challenge is right: it is run if the hash is right too, and held against the sender
      otherwise. */
  function RunIfAuthorised(cfg: Config, s: State, e: Event, salt: u32): (State, seq<Action>)
    requires e.packet.AdminCommand?
  {
    if HashMatches(cfg, e.packet.hash, salt) then
      var s' := RunCommand(s, e.packet.command, e);
      (s'.(adminChallenges := Remove(s'.adminChallenges, e.from.ip)),
       [CommandRun(e.from.ip, e.packet.masterChallenge, salt, e.Now(1))])
    else
      (s.(adminLimit := Insert(s.adminLimit, e.from.ip, (), e.Now(2), e.Now(3))), [])
  }

  function HandleAdminCommand(cfg: Config, s: State, e: Event): (State, seq<Action>)
    requires e.packet.AdminCommand?
  {
    var entry := Lookup(s.adminChallenges.entries, e.from.ip, e.Now(1), s.adminChallenges.timeout);
    if !AdminAllowed(s, e) || entry.None? || entry.value.value.0 != e.packet.masterChallenge then
      (s, [])
    else
      RunIfAuthorised(cfg, s, e, entry.value.value.1)
  }

  /** Everything one received packet does, the blocklist check of the receive loop included. */
  function Step(cfg: Config, s: State, e: Event): (State, seq<Action>) {
    if e.from.ip in s.blocklist then (s, []) else
    match e.packet
    case ChallengeRequest => HandleChallenge(s, e)
    case AddRequest(msg) => HandleServerAdd(cfg, s, e, msg)
    case RemoveRequest => (s, [])
    case QueryServers(_) => HandleGameRequest(cfg, s, e)
    case GetServerInfo(_) => HandleGameRequest(cfg, s, e)
    case AdminChallenge => HandleAdminChallenge(s, e)
    case AdminCommand(_, _, _) => HandleAdminCommand(cfg, s, e)
    case Undefined => (s, [])
  }

  /** The receive loop only lets in addresses of the server's own family. */
  predicate ServersFit(f: Family, s: State) {
    forall a | a in s.servers.entries :: f.Fits(a)
  }

  lemma {:induction false} BanAllKeepsFit(f: Family, s: State, ips: seq<Option<Ip>>, e: Event, i: nat)
    requires ServersFit(f, s)
    ensures ServersFit(f, BanAll(s, ips, e, i))
    decreases |ips|
  {
    if ips != [] {
      BanAllKeepsFit(f, if ips[0].Some? then BanIp(s, ips[0].value, e.Now(i)) else s, ips[1..], e, i + 1);
    }
  }

  lemma AddKeepsFit(f: Family, cfg: Config, s: State, e: Event, info: ServerInfo)
    requires ServersFit(f, s) && f.Fits(e.from)
    ensures ServersFit(f, s.(servers := AddServer(cfg, s.servers, e.from, info, (e.Now(2), e.Now(3), e.Now(4), e.Now(5)))))
  {
  }

  lemma StepKeepsFit(f: Family, cfg: Config, s: State, e: Event)
    requires ServersFit(f, s) && f.Fits(e.from)
    ensures ServersFit(f, Step(cfg, s, e).0)
  {
    if e.packet.AddRequest? {
      AddKeepsFit(f, cfg, s, e, NewServerInfo(e.packet.msg));
    } else if e.packet.AdminCommand? && e.packet.command.Ban? {
      BanAllKeepsFit(f, s, e.packet.command.ips, e, 2);
    }
  }

  /** What a new configuration does to the stored entries: only their timeouts change. */
  function SetTimeouts(s: State, challenge: u32, server: u32, admin: u32): State {
    s.(challenges := s.challenges.(timeout := challenge), servers := s.servers.(timeout := server),
       adminChallenges := s.adminChallenges.(timeout := challenge), adminLimit := s.adminLimit.(timeout := admin))
  }

  /** The state and the log after a run from the empty master. */
  function Run(cfg: Config, events: seq<Event>): (State, seq<Action>) {
    if events == [] then (Init(cfg), []) else
    var last := |events| - 1;
    var (s, log) := Run(cfg, events[..last]);
    var (s', actions) := Step(cfg, s, events[last]);
    (s', log + actions)
  }

  /** The last clock reading of a run. */
  function EndOf(events: seq<Event>): nat {
    if events == [] then 0 else events[|events| - 1].End()
  }

  predicate WellTimedRun(events: seq<Event>) {
    events == [] ||
    (var last := |events| - 1;
     WellTimedRun(events[..last]) && events[last].WellTimed(EndOf(events[..last])))
  }
}
