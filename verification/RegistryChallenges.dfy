/** Challenges over whole runs: what authorises a registration and an admin command. */
module RegistryChallenges {
  import opened Prelude
  import opened Types
  import opened Clock
  import opened TimedMap
  import opened TimedMapRefinement
  import opened Registry
  import opened RegistryQueries
  import opened RegistrySafety
  import opened Tickets

  function ServerTicket(a: Action): Ticket<Addr, u32> {
    match a
    case ChallengeIssued(addr, n, t) => Issue(addr, n, t)
    case ChallengeSent(addr, n, t) => Show(addr, n, t)
    case Registered(addr, n, t, _) => Use(addr, n, t)
    case _ => Other
  }

  function AdminTicket(a: Action): Ticket<Ip, (u32, u32)> {
    match a
    case AdminIssued(ip, x, y, t) => Issue(ip, (x, y), t)
    case CommandRun(ip, x, y, t) => Use(ip, (x, y), t)
    case _ => Other
  }

  function ServerTickets(log: seq<Action>): seq<Ticket<Addr, u32>> {
    seq(|log|, i requires 0 <= i < |log| => ServerTicket(log[i]))
  }

  function AdminTickets(log: seq<Action>): seq<Ticket<Ip, (u32, u32)>> {
    seq(|log|, i requires 0 <= i < |log| => AdminTicket(log[i]))
  }

  ghost predicate ServerInv(s: State, log: seq<Action>, now: nat) {
    Accounted(ServerTickets(log), s.challenges) && Lasting(ServerTickets(log), s.challenges, now)
  }

  ghost predicate AdminInv(s: State, log: seq<Action>) {
    Accounted(AdminTickets(log), s.adminChallenges)
  }

  lemma LogGrows(log: seq<Action>, a: Action)
    ensures ServerTickets(log + [a]) == ServerTickets(log) + [ServerTicket(a)]
    ensures AdminTickets(log + [a]) == AdminTickets(log) + [AdminTicket(a)]
  {
  }

  lemma ServerAction(s: State, s': State, log: seq<Action>, a: Action, now: nat, later: nat)
    requires ServerInv(s, log, now) && Legal(ServerTicket(a), s.challenges, s'.challenges, now, later)
    ensures ServerInv(s', log + [a], later)
  {
    LogGrows(log, a);
    LegalKeepsInvariant(ServerTickets(log), ServerTicket(a), s.challenges, s'.challenges, now, later);
  }

  lemma ChallengeKeepsInv(s: State, e: Event, log: seq<Action>, start: nat)
    requires ServerInv(s, log, start) && e.WellTimed(start)
    ensures ServerInv(HandleChallenge(s, e).0, log + HandleChallenge(s, e).1, e.End())
  {
    var m := OpenEntry(s.challenges, e.from, e.Now(0));
    var s' := HandleChallenge(s, e).0;
    ClockIsMonotone(e, start, 0, 1);
    if e.from in m.entries {
      LiveSurvives(s.challenges, e.from, e.Now(0), e.End());
      ServerAction(s, s', log, ChallengeSent(e.from, m.entries[e.from].value, e.Now(0)), start, e.End());
    } else {
      var issued := ChallengeIssued(e.from, e.random.0, e.Now(1));
      IssueIsLegal(s.challenges, e.from, Timed(e.Now(1), e.random.0), start, e.Now(0), e.End());
      ServerAction(s, s', log, issued, start, e.End());
      ServerAction(s', s', log + [issued], ChallengeSent(e.from, e.random.0, e.Now(1)), e.End(), e.End());
      assert log + [issued] + [ChallengeSent(e.from, e.random.0, e.Now(1))] == log + HandleChallenge(s, e).1;
    }
  }

  lemma LiveSurvives<K, D>(m: Store<K, D>, key: K, now: nat, later: nat)
    requires now <= later
    ensures Legal(Other, m, OpenEntry(m, key, now), now, later)
  {
    forall k | k in m.entries && Live(m.entries[k], later, m.timeout)
      ensures k in OpenEntry(m, key, now).entries
    {
      LaterLiveWasLive(m.entries[k], now, later, m.timeout);
    }
  }

  lemma IssueIsLegal<K, D>(m: Store<K, D>, key: K, e: Timed<D>, start: nat, now: nat, later: nat)
    requires start <= now <= e.time <= later && key !in OpenEntry(m, key, now).entries
    ensures Legal(Issue(key, e.value, e.time), m, PutEntry(OpenEntry(m, key, now), key, e), start, later)
  {
    LiveSurvives(m, key, now, later);
    if key in m.entries && Live(m.entries[key], e.time, m.timeout) {
      LaterLiveWasLive(m.entries[key], now, e.time, m.timeout);
    }
  }

  lemma ServerAddKeepsInv(cfg: Config, s: State, e: Event, msg: ServerAdd, log: seq<Action>, start: nat)
    requires ServerInv(s, log, start) && e.WellTimed(start)
    ensures ServerInv(HandleServerAdd(cfg, s, e, msg).0, log + HandleServerAdd(cfg, s, e, msg).1, e.End())
  {
    var (s', actions) := HandleServerAdd(cfg, s, e, msg);
    ClockIsMonotone(e, start, 0, 1);
    if actions == [] {
      if s'.challenges != s.challenges && e.from in s.challenges.entries
         && Live(s.challenges.entries[e.from], e.End(), s.challenges.timeout) {
        LaterLiveWasLive(s.challenges.entries[e.from], e.Now(1), e.End(), s.challenges.timeout);
      }
      assert log + actions == log;
      IdleKeepsInvariant(ServerTickets(log), s.challenges, s'.challenges, start, e.End());
    } else {
      ServerAction(s, s', log, actions[0], start, e.End());
    }
  }

  /** Handlers that leave the server challenges alone say nothing about them either. */
  lemma {:induction false} OthersKeepServerInv(
      s: State, s': State, log: seq<Action>, actions: seq<Action>, now: nat, later: nat)
    requires ServerInv(s, log, now) && s'.challenges == s.challenges && now <= later
    requires forall a | a in actions :: ServerTicket(a) == Other
    ensures ServerInv(s', log + actions, later)
    decreases |actions|
  {
    if actions == [] {
      assert log + actions == log;
      IdleKeepsInvariant(ServerTickets(log), s.challenges, s.challenges, now, later);
    } else {
      ServerAction(s, s', log, actions[0], now, later);
      OthersKeepServerInv(s', s', log + [actions[0]], actions[1..], later, later);
      assert log + [actions[0]] + actions[1..] == log + actions;
    }
  }

  lemma {:induction false} BanLeavesChallenges(s: State, ips: seq<Option<Ip>>, e: Event, i: nat)
    ensures BanAll(s, ips, e, i).challenges == s.challenges
    ensures BanAll(s, ips, e, i).adminChallenges == s.adminChallenges
    ensures BanAll(s, ips, e, i).clientRate == s.clientRate
    decreases |ips|
  {
    if ips != [] {
      var s' := if ips[0].Some? then BanIp(s, ips[0].value, e.Now(i)) else s;
      BanLeavesChallenges(s', ips[1..], e, i + 1);
    }
  }

  lemma CommandLeavesChallenges(s: State, command: Command, e: Event)
    ensures RunCommand(s, command, e).challenges == s.challenges
    ensures RunCommand(s, command, e).adminChallenges == s.adminChallenges
    ensures RunCommand(s, command, e).clientRate == s.clientRate
  {
    if command.Ban? {
      BanLeavesChallenges(s, command.ips, e, 2);
    }
  }

  lemma StepKeepsServerInv(cfg: Config, s: State, e: Event, log: seq<Action>, start: nat)
    requires ServerInv(s, log, start) && e.WellTimed(start)
    ensures ServerInv(Step(cfg, s, e).0, log + Step(cfg, s, e).1, e.End())
  {
    var (s', actions) := Step(cfg, s, e);
    ClockIsMonotone(e, start, 0, 0);
    if e.from.ip in s.blocklist {
      OthersKeepServerInv(s, s', log, actions, start, e.End());
    } else {
      match e.packet
      case ChallengeRequest => ChallengeKeepsInv(s, e, log, start);
      case AddRequest(msg) => ServerAddKeepsInv(cfg, s, e, msg, log, start);
      case AdminCommand(_, _, command) =>
        CommandLeavesChallenges(s, command, e);
        OthersKeepServerInv(s, s', log, actions, start, e.End());
      case _ => OthersKeepServerInv(s, s', log, actions, start, e.End());
    }
  }

  /** Main result for servers. Over any run, every registration spends an issuance made to the same
      address, carrying the same number, less than the challenge timeout earlier, with no registration of
      that address in between (so no issuance is spent twice); and a new number is only ever issued once
      the previous one was spent or has outlived the timeout, so asking again returns the number already
      out and does not prolong it. */
  lemma {:induction false} RegistrationsSpendChallenges(cfg: Config, events: seq<Event>)
    requires WellTimedRun(events)
    ensures ServerInv(Run(cfg, events).0, Run(cfg, events).1, EndOf(events))
    ensures Run(cfg, events).0.challenges.timeout == cfg.challengeTimeout
    ensures EveryUseSpends(ServerTickets(Run(cfg, events).1), cfg.challengeTimeout)
    ensures EveryShowTells(ServerTickets(Run(cfg, events).1), cfg.challengeTimeout)
    ensures NeverReplacedEarly(ServerTickets(Run(cfg, events).1), cfg.challengeTimeout)
  {
    if events != [] {
      var last := |events| - 1;
      RegistrationsSpendChallenges(cfg, events[..last]);
      var (s, log) := Run(cfg, events[..last]);
      StepKeepsServerInv(cfg, s, events[last], log, EndOf(events[..last]));
      CommandTimeouts(cfg, s, events[last]);
    }
  }

  lemma CommandTimeouts(cfg: Config, s: State, e: Event)
    ensures Step(cfg, s, e).0.challenges.timeout == s.challenges.timeout
    ensures Step(cfg, s, e).0.adminChallenges.timeout == s.adminChallenges.timeout
    ensures Step(cfg, s, e).0.clientRate.timeout == s.clientRate.timeout
  {
    if e.packet.AdminCommand? {
      CommandLeavesChallenges(s, e.packet.command, e);
    }
  }

  lemma AdminAction(s: State, s': State, log: seq<Action>, a: Action)
    requires AdminInv(s, log) && s'.adminChallenges.timeout == s.adminChallenges.timeout
    requires forall key | key in s'.adminChallenges.entries ::
               var e := s'.adminChallenges.entries[key];
               || (key in s.adminChallenges.entries && e == s.adminChallenges.entries[key])
               || AdminTicket(a) == Issue(key, e.value, e.time)
    requires AdminTicket(a).Use? ==>
               var m, t := s.adminChallenges, AdminTicket(a);
               && t.key in m.entries && t.key !in s'.adminChallenges.entries && m.entries[t.key].value == t.id
               && Live(m.entries[t.key], t.time, m.timeout)
    ensures AdminInv(s', log + [a])
  {
    LogGrows(log, a);
    AppendKeepsSpending(AdminTickets(log), AdminTicket(a), s.adminChallenges, s'.adminChallenges);
    AppendKeepsTelling(AdminTickets(log), AdminTicket(a), s.adminChallenges);
  }

  lemma AdminChallengeKeepsInv(s: State, e: Event, log: seq<Action>)
    requires AdminInv(s, log)
    ensures AdminInv(HandleAdminChallenge(s, e).0, log + HandleAdminChallenge(s, e).1)
  {
    var (s', actions) := HandleAdminChallenge(s, e);
    if actions == [] {
      assert log + actions == log;
    } else {
      AdminAction(s, s', log, actions[0]);
    }
  }

  lemma AdminCommandKeepsInv(cfg: Config, s: State, e: Event, log: seq<Action>)
    requires AdminInv(s, log) && e.packet.AdminCommand?
    ensures AdminInv(HandleAdminCommand(cfg, s, e).0, log + HandleAdminCommand(cfg, s, e).1)
  {
    var (s', actions) := HandleAdminCommand(cfg, s, e);
    CommandLeavesChallenges(s, e.packet.command, e);
    if actions == [] {
      assert log + actions == log;
    } else {
      AdminAction(s, s', log, actions[0]);
    }
  }

  /** Handlers that leave the admin challenges alone. */
  lemma {:induction false} OthersKeepAdminInv(s: State, s': State, log: seq<Action>, actions: seq<Action>)
    requires AdminInv(s, log) && s'.adminChallenges == s.adminChallenges
    requires forall a | a in actions :: AdminTicket(a) == Other
    ensures AdminInv(s', log + actions)
    decreases |actions|
  {
    if actions == [] {
      assert log + actions == log;
    } else {
      AdminAction(s, s', log, actions[0]);
      OthersKeepAdminInv(s', s', log + [actions[0]], actions[1..]);
      assert log + [actions[0]] + actions[1..] == log + actions;
    }
  }

  lemma StepKeepsAdminInv(cfg: Config, s: State, e: Event, log: seq<Action>)
    requires AdminInv(s, log)
    ensures AdminInv(Step(cfg, s, e).0, log + Step(cfg, s, e).1)
  {
    if e.from.ip !in s.blocklist && e.packet.AdminChallenge? {
      AdminChallengeKeepsInv(s, e, log);
    } else if e.from.ip !in s.blocklist && e.packet.AdminCommand? {
      AdminCommandKeepsInv(cfg, s, e, log);
    } else {
      OthersKeepAdminInv(s, Step(cfg, s, e).0, log, Step(cfg, s, e).1);
    }
  }

  /** Main result for admins: every executed command spends an admin challenge issued to the same IP
      with the same two numbers, less than the timeout earlier; no issuance authorises two commands. */
  lemma {:induction false} CommandsSpendChallenges(cfg: Config, events: seq<Event>)
    ensures AdminInv(Run(cfg, events).0, Run(cfg, events).1)
    ensures Run(cfg, events).0.adminChallenges.timeout == cfg.challengeTimeout
    ensures EveryUseSpends(AdminTickets(Run(cfg, events).1), cfg.challengeTimeout)
  {
    if events != [] {
      var last := |events| - 1;
      CommandsSpendChallenges(cfg, events[..last]);
      var (s, log) := Run(cfg, events[..last]);
      StepKeepsAdminInv(cfg, s, events[last], log);
      CommandTimeouts(cfg, s, events[last]);
    }
  }

  /** Registration `j` is where the stored entry of `a` comes from. */
  ghost predicate StoredBy(log: seq<Action>, a: Addr, e: Timed<ServerInfo>, j: nat) {
    j < |log| && log[j].Registered? && log[j].addr == a && NewServerInfo(log[j].msg) == e.value && log[j].time <= e.time
  }

  ghost predicate AllRegistered(s: State, log: seq<Action>) {
    forall a | a in s.servers.entries :: exists j :: StoredBy(log, a, s.servers.entries[a], j)
  }

  /** Servers that stay stored keep their registration; a new one brings its own. */
  lemma RegistrationsGrow(s: State, s': State, log: seq<Action>, actions: seq<Action>)
    requires AllRegistered(s, log)
    requires forall a | a in s'.servers.entries ::
               || (a in s.servers.entries && s'.servers.entries[a] == s.servers.entries[a])
               || (|actions| == 1 && StoredBy(actions, a, s'.servers.entries[a], 0))
    ensures AllRegistered(s', log + actions)
  {
    forall a | a in s'.servers.entries
      ensures exists j :: StoredBy(log + actions, a, s'.servers.entries[a], j)
    {
      if a in s.servers.entries && s'.servers.entries[a] == s.servers.entries[a] {
        var j :| StoredBy(log, a, s.servers.entries[a], j);
        assert StoredBy(log + actions, a, s'.servers.entries[a], j);
      } else {
        assert StoredBy(log + actions, a, s'.servers.entries[a], |log|);
      }
    }
  }

  lemma {:induction false} BanOnlyRemoves(s: State, ips: seq<Option<Ip>>, e: Event, i: nat)
    ensures var m := BanAll(s, ips, e, i).servers.entries;
            forall a | a in m :: a in s.servers.entries && m[a] == s.servers.entries[a]
    decreases |ips|
  {
    if ips != [] {
      var s' := if ips[0].Some? then BanIp(s, ips[0].value, e.Now(i)) else s;
      BanOnlyRemoves(s', ips[1..], e, i + 1);
    }
  }

  /** What adding leaves stored. */
  lemma AddedEntries(
      cfg: Config, servers: Store<Addr, ServerInfo>, addr: Addr, info: ServerInfo, t: (nat, nat, nat, nat), a: Addr)
    requires a in AddServer(cfg, servers, addr, info, t).entries
    ensures var entry := AddServer(cfg, servers, addr, info, t).entries[a];
            || (a in servers.entries && entry == servers.entries[a])
            || (a == addr && entry in {Timed(t.1, info), Timed(t.2, info)})
  {
  }

  lemma ServerAddKeepsRegistered(cfg: Config, s: State, e: Event, msg: ServerAdd, log: seq<Action>, start: nat)
    requires AllRegistered(s, log) && e.WellTimed(start)
    ensures AllRegistered(HandleServerAdd(cfg, s, e, msg).0, log + HandleServerAdd(cfg, s, e, msg).1)
  {
    ClockIsMonotone(e, start, 1, 3);
    ClockIsMonotone(e, start, 1, 4);
    var (s', actions) := HandleServerAdd(cfg, s, e, msg);
    var info, t := NewServerInfo(msg), (e.Now(2), e.Now(3), e.Now(4), e.Now(5));
    forall a | a in s'.servers.entries
      ensures || (a in s.servers.entries && s'.servers.entries[a] == s.servers.entries[a])
              || (|actions| == 1 && StoredBy(actions, a, s'.servers.entries[a], 0))
    {
      if s'.servers == AddServer(cfg, s.servers, e.from, info, t) {
        AddedEntries(cfg, s.servers, e.from, info, t, a);
      }
    }
    RegistrationsGrow(s, s', log, actions);
  }

  lemma StepKeepsRegistered(cfg: Config, s: State, e: Event, log: seq<Action>, start: nat)
    requires AllRegistered(s, log) && e.WellTimed(start)
    ensures AllRegistered(Step(cfg, s, e).0, log + Step(cfg, s, e).1)
  {
    if e.from.ip !in s.blocklist && e.packet.AddRequest? {
      ServerAddKeepsRegistered(cfg, s, e, e.packet.msg, log, start);
    } else {
      if e.packet.AdminCommand? && e.packet.command.Ban? {
        BanOnlyRemoves(s, e.packet.command.ips, e, 2);
      }
      RegistrationsGrow(s, Step(cfg, s, e).0, log, Step(cfg, s, e).1);
    }
  }

  lemma {:induction false} StoredServersAreRegistered(cfg: Config, events: seq<Event>)
    requires WellTimedRun(events)
    ensures AllRegistered(Run(cfg, events).0, Run(cfg, events).1)
  {
    if events != [] {
      var last := |events| - 1;
      StoredServersAreRegistered(cfg, events[..last]);
      var (s, log) := Run(cfg, events[..last]);
      StepKeepsRegistered(cfg, s, events[last], log, EndOf(events[..last]));
    }
  }

  /** Address `a` was issued a number at `i`, returned it at `j` in time, and sent details that the query
      asks for. */
  ghost predicate ProvedAt(log: seq<Action>, i: nat, j: nat, a: Addr, query: ServerQuery, timeout: nat) {
    && i < j < |log| && log[i].ChallengeIssued? && log[j].Registered?
    && log[i].addr == log[j].addr == a && log[i].number == log[j].number
    && log[j].time < log[i].time + TICKS_PER_SEC * timeout
    && Asked(query, log[j].msg)
  }

  /** Whatever a query selects registered with details that the query asks for, by returning a number that had
      been issued to that very address before, less than the challenge timeout earlier. */
  lemma SelectedServersAnsweredTheirChallenge(cfg: Config, events: seq<Event>, query: ServerQuery, now: nat, a: Addr)
    requires WellTimedRun(events) && query.filter.clver.Some?
    requires a in Answer(Run(cfg, events).0, query, now)
    ensures exists i, j :: ProvedAt(Run(cfg, events).1, i, j, a, query, cfg.challengeTimeout)
  {
    var (s, log) := Run(cfg, events);
    StoredServersAreRegistered(cfg, events);
    RegistrationsSpendChallenges(cfg, events);
    var j := StoringRegistration(log, a, s.servers.entries[a]);
    var i := SpentIssuance(log, j, cfg.challengeTimeout);
    AskedIff(query, log[j].msg);
    ValidIffWithinTimeout(log[i].time, log[j].time, cfg.challengeTimeout);
    assert ProvedAt(log, i, j, a, query, cfg.challengeTimeout);
  }

  lemma StoringRegistration(log: seq<Action>, a: Addr, e: Timed<ServerInfo>) returns (j: nat)
    requires exists j :: StoredBy(log, a, e, j)
    ensures StoredBy(log, a, e, j)
  {
    j :| StoredBy(log, a, e, j);
  }

  lemma SpentIssuance(log: seq<Action>, j: nat, timeout: nat) returns (i: nat)
    requires j < |log| && log[j].Registered? && EveryUseSpends(ServerTickets(log), timeout)
    ensures i < j && log[i].ChallengeIssued? && log[i].addr == log[j].addr && log[i].number == log[j].number
    ensures IsValid(log[i].time, log[j].time, timeout)
  {
    var tickets := ServerTickets(log);
    assert tickets[j] == ServerTicket(log[j]);
    i :| Spends(tickets, i, j, timeout);
    assert tickets[i] == ServerTicket(log[i]);
  }

  /** Exactly when a packet registers its sender: it is let in, its version is not older than the minimum, and it
      returns the number that is stored for the sender, which has not outlived its timeout at either reading. */
  lemma RegistersIff(cfg: Config, s: State, e: Event, msg: ServerAdd)
    requires e.packet == AddRequest(msg)
    ensures Step(cfg, s, e).1 in {[], [Registered(e.from, msg.challenge, e.Now(1), msg)]}
    ensures Step(cfg, s, e).1 != [] <==>
              && e.from.ip !in s.blocklist
              && VersionNumber(cfg.serverMinVersion) <= VersionNumber(msg.version)
              && e.from in s.challenges.entries && s.challenges.entries[e.from].value == msg.challenge
              && e.Now(0) < s.challenges.entries[e.from].time + TICKS_PER_SEC * s.challenges.timeout
              && e.Now(1) < s.challenges.entries[e.from].time + TICKS_PER_SEC * s.challenges.timeout
              && s.challenges.timeout > 0
  {
    VersionLessIff(msg.version, cfg.serverMinVersion);
    if e.from in s.challenges.entries {
      ValidIffWithinTimeout(s.challenges.entries[e.from].time, e.Now(0), s.challenges.timeout);
      ValidIffWithinTimeout(s.challenges.entries[e.from].time, e.Now(1), s.challenges.timeout);
    }
  }

  /** Nothing but such a packet registers anyone. */
  lemma OnlyAddRequestsRegister(cfg: Config, s: State, e: Event, act: Action)
    requires act.Registered? && act in Step(cfg, s, e).1
    ensures e.packet.AddRequest? && act == Registered(e.from, e.packet.msg.challenge, e.Now(1), e.packet.msg)
  {
  }

  /** Every server that is let in is told a number: the stored one while that has not outlived its timeout, otherwise
      a new one, which is issued to it. */
  lemma ChallengeIsTold(cfg: Config, s: State, e: Event)
    requires e.packet == ChallengeRequest && e.from.ip !in s.blocklist && s.challenges.timeout > 0
    ensures Step(cfg, s, e).1
         == if e.from in s.challenges.entries
               && e.Now(0) < s.challenges.entries[e.from].time + TICKS_PER_SEC * s.challenges.timeout then
              [ChallengeSent(e.from, s.challenges.entries[e.from].value, e.Now(0))]
            else
              [ChallengeIssued(e.from, e.random.0, e.Now(1)), ChallengeSent(e.from, e.random.0, e.Now(1))]
  {
    if e.from in s.challenges.entries {
      ValidIffWithinTimeout(s.challenges.entries[e.from].time, e.Now(0), s.challenges.timeout);
    }
  }

  /** Number `n` was issued to `a` at `i`, and since then neither another number was nor did `a` register. */
  predicate LastIssued(log: seq<Action>, i: nat, a: Addr, n: u32) {
    && i < |log| && log[i].ChallengeIssued? && log[i].addr == a && log[i].number == n
    && forall k | i < k < |log| :: (log[k].ChallengeIssued? || log[k].Registered?) ==> log[k].addr != a
  }

  lemma LastIssuedIsStored(s: State, log: seq<Action>, i: nat, a: Addr, n: u32, now: nat)
    requires ServerInv(s, log, now) && LastIssued(log, i, a, n)
    requires now < log[i].time + TICKS_PER_SEC * s.challenges.timeout && s.challenges.timeout > 0
    ensures a in s.challenges.entries && s.challenges.entries[a] == Timed(log[i].time, n)
  {
    assert IsLast(ServerTickets(log), i);
    ValidIffWithinTimeout(log[i].time, now, s.challenges.timeout);
  }

  /** The other half of the protocol, over whole runs: a server that returns the last number issued to it, with an
      acceptable version and before the timeout, is registered. */
  lemma ReturningServersRegister(cfg: Config, events: seq<Event>, e: Event, msg: ServerAdd, i: nat)
    requires WellTimedRun(events) && e.WellTimed(EndOf(events)) && e.packet == AddRequest(msg)
    requires e.from.ip !in Run(cfg, events).0.blocklist
    requires VersionNumber(cfg.serverMinVersion) <= VersionNumber(msg.version)
    ensures LastIssued(Run(cfg, events).1, i, e.from, msg.challenge)
            && e.Now(1) < Run(cfg, events).1[i].time + TICKS_PER_SEC * cfg.challengeTimeout && cfg.challengeTimeout > 0
        ==> Registered(e.from, msg.challenge, e.Now(1), msg) in Step(cfg, Run(cfg, events).0, e).1
  {
    var (s, log) := Run(cfg, events);
    ClockIsMonotone(e, EndOf(events), 0, 1);
    if LastIssued(log, i, e.from, msg.challenge)
       && e.Now(1) < log[i].time + TICKS_PER_SEC * cfg.challengeTimeout && cfg.challengeTimeout > 0 {
      RegistrationsSpendChallenges(cfg, events);
      LastIssuedIsStored(s, log, i, e.from, msg.challenge, EndOf(events));
      RegistersIff(cfg, s, e, msg);
    }
  }
}
