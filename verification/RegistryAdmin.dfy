/** Admin commands over whole runs: which are executed, what they do, and what a wrong hash costs. */
module RegistryAdmin {
  import opened Prelude
  import opened Types
  import opened Clock
  import opened TimedMap
  import opened TimedMapRefinement
  import opened Registry
  import opened RegistrySafety
  import opened RegistryChallenges
  import opened RegistryAnswers
  import Tickets

  // One command

  /** The hash belongs to one of the configured passwords. */
  ghost predicate IsAdmin(cfg: Config, hash: bytes, salt: u32) {
    exists p :: p in cfg.passwords && cfg.hash(p, salt) == hash
  }

  /** A wrong hash is held against the IP. */
  predicate Limited(s: State, ip: Ip, now: nat) {
    var m := s.adminLimit;
    ip in m.entries && m.timeout > 0 && now < m.entries[ip].time + TICKS_PER_SEC * m.timeout
  }

  /** The numbers that were issued to the IP, while they have not outlived the timeout. */
  function Challenge(s: State, ip: Ip, now: nat): Option<(u32, u32)> {
    var m := s.adminChallenges;
    if ip in m.entries && m.timeout > 0 && now < m.entries[ip].time + TICKS_PER_SEC * m.timeout then Some(m.entries[ip].value)
    else None
  }

  /** The sender is let in, nothing is held against it, and it returns the first of the numbers issued to it. */
  predicate Challenged(s: State, e: Event)
    requires e.packet.AdminCommand?
  {
    var numbers := Challenge(s, e.from.ip, e.Now(1));
    && e.from.ip !in s.blocklist && !Limited(s, e.from.ip, e.Now(0))
    && numbers.Some? && numbers.value.0 == e.packet.masterChallenge
  }

  lemma HashMatchesIff(cfg: Config, hash: bytes, salt: u32)
    ensures HashMatches(cfg, hash, salt) <==> IsAdmin(cfg, hash, salt)
  {
    if IsAdmin(cfg, hash, salt) {
      var p :| p in cfg.passwords && cfg.hash(p, salt) == hash;
      var i :| 0 <= i < |cfg.passwords| && cfg.passwords[i] == p;
    }
  }

  lemma AllowedIff(s: State, e: Event)
    ensures AdminAllowed(s, e) <==> !Limited(s, e.from.ip, e.Now(0))
  {
    if e.from.ip in s.adminLimit.entries {
      ValidIffWithinTimeout(s.adminLimit.entries[e.from.ip].time, e.Now(0), s.adminLimit.timeout);
    }
  }

  lemma ChallengeIff(s: State, ip: Ip, now: nat)
    ensures var entry := Lookup(s.adminChallenges.entries, ip, now, s.adminChallenges.timeout);
            Challenge(s, ip, now) == if entry.Some? then Some(entry.value.value) else None
  {
    if ip in s.adminChallenges.entries {
      ValidIffWithinTimeout(s.adminChallenges.entries[ip].time, now, s.adminChallenges.timeout);
    }
  }

  /** Whatever command arrives: with the right challenge and the hash of a password it is executed; with another
      hash it changes nothing, and the sender is held to account; without the challenge nothing happens at all. */
  lemma CommandOutcome(cfg: Config, s: State, e: Event)
    requires e.packet.AdminCommand?
    ensures !Challenged(s, e) ==> Step(cfg, s, e) == (s, [])
    ensures Challenged(s, e) && !IsAdmin(cfg, e.packet.hash, Challenge(s, e.from.ip, e.Now(1)).value.1) ==>
              Step(cfg, s, e) == (s.(adminLimit := Insert(s.adminLimit, e.from.ip, (), e.Now(2), e.Now(3))), [])
    ensures Challenged(s, e) && IsAdmin(cfg, e.packet.hash, Challenge(s, e.from.ip, e.Now(1)).value.1) ==>
              && Step(cfg, s, e).1 == [CommandRun(e.from.ip, e.packet.masterChallenge,
                                                  Challenge(s, e.from.ip, e.Now(1)).value.1, e.Now(1))]
              && Step(cfg, s, e).0 == RunCommand(s, e.packet.command, e).(
                   adminChallenges := Remove(s.adminChallenges, e.from.ip))
  {
    AllowedIff(s, e);
    ChallengeIff(s, e.from.ip, e.Now(1));
    if Challenged(s, e) {
      HashMatchesIff(cfg, e.packet.hash, Challenge(s, e.from.ip, e.Now(1)).value.1);
      CommandLeavesChallenges(s, e.packet.command, e);
    }
  }

  /** A command is executed exactly when its sender is challenged and its hash that of a password. */
  lemma CommandRunsIff(cfg: Config, s: State, e: Event, act: Action)
    requires act.CommandRun?
    ensures act in Step(cfg, s, e).1 <==>
              && e.packet.AdminCommand? && Challenged(s, e) && IsAdmin(cfg, e.packet.hash, act.salt)
              && act.ip == e.from.ip && act.time == e.Now(1)
              && Challenge(s, e.from.ip, e.Now(1)) == Some((act.master, act.salt)) && act.master == e.packet.masterChallenge
  {
    if e.packet.AdminCommand? {
      CommandOutcome(cfg, s, e);
    }
  }

  // What commands do

  lemma {:induction false} BanAllAdds(s: State, ips: seq<Option<Ip>>, e: Event, i: nat, ip: Ip)
    ensures ip in BanAll(s, ips, e, i).blocklist <==> ip in s.blocklist || Some(ip) in ips
    decreases |ips|
  {
    if ips != [] {
      BanAllAdds(if ips[0].Some? then BanIp(s, ips[0].value, e.Now(i)) else s, ips[1..], e, i + 1, ip);
      assert Some(ip) in ips <==> Some(ip) == ips[0] || Some(ip) in ips[1..];
    }
  }

  /** The command was executed. */
  predicate Executed(cfg: Config, s: State, e: Event) {
    e.packet.AdminCommand? && Step(cfg, s, e).1 != []
  }

  predicate Bans(cfg: Config, s: State, e: Event, ip: Ip) {
    Executed(cfg, s, e) && e.packet.command.Ban? && Some(ip) in e.packet.command.ips
  }

  predicate Unbans(cfg: Config, s: State, e: Event, ip: Ip) {
    Executed(cfg, s, e) && e.packet.command.Unban? && Some(ip) in e.packet.command.ips
  }

  /** An executed ban puts every address that it names on the block list, an executed unban takes every one off, and
      nothing else changes the list. */
  lemma BlocklistAfter(cfg: Config, s: State, e: Event, ip: Ip)
    ensures ip in Step(cfg, s, e).0.blocklist <==> Bans(cfg, s, e, ip) || (ip in s.blocklist && !Unbans(cfg, s, e, ip))
  {
    if e.packet.AdminCommand? {
      CommandOutcome(cfg, s, e);
      match e.packet.command
      case Ban(ips) => BanAllAdds(s, ips, e, 2, ip);
      case Unban(ips) => UnbanAllShrinks(s.blocklist, ips);
      case InvalidCommand =>
    }
  }

  /** An executed ban takes away the servers of the addresses that it names, and only outdated ones besides. */
  lemma BannedServersGo(cfg: Config, s: State, e: Event, start: nat, a: Addr)
    requires NoneBlocked(s) && e.WellTimed(start) && Executed(cfg, s, e) && e.packet.command.Ban?
    ensures Some(a.ip) in e.packet.command.ips ==> a !in Step(cfg, s, e).0.servers.entries
    ensures && Some(a.ip) !in e.packet.command.ips && a in s.servers.entries
            && IsValid(s.servers.entries[a].time, e.End(), s.servers.timeout)
        ==> Holds(Step(cfg, s, e).0, a, s.servers.entries[a])
  {
    CommandOutcome(cfg, s, e);
    BannedStayOut(s, e.packet.command.ips, e, 2);
    BanAllAdds(s, e.packet.command.ips, e, 2, a.ip);
    if && Some(a.ip) !in e.packet.command.ips && a in s.servers.entries
       && IsValid(s.servers.entries[a].time, e.End(), s.servers.timeout) {
      BanAllSpares(s, e.packet.command.ips, e, 2, a, s.servers.entries[a]);
    }
  }

  lemma {:induction false} BannedStayOut(s: State, ips: seq<Option<Ip>>, e: Event, i: nat)
    requires NoneBlocked(s)
    ensures NoneBlocked(BanAll(s, ips, e, i))
    decreases |ips|
  {
    if ips != [] {
      BannedStayOut(if ips[0].Some? then BanIp(s, ips[0].value, e.Now(i)) else s, ips[1..], e, i + 1);
    }
  }

  // Bans over whole runs

  /** Event `k` executes a ban of the IP. */
  predicate BansAt(cfg: Config, events: seq<Event>, k: nat, ip: Ip)
    requires k < |events|
  {
    Bans(cfg, Run(cfg, events[..k]).0, events[k], ip)
  }

  predicate UnbansAt(cfg: Config, events: seq<Event>, k: nat, ip: Ip)
    requires k < |events|
  {
    Unbans(cfg, Run(cfg, events[..k]).0, events[k], ip)
  }

  /** Event `k` executes a ban of the IP, and no later one executes an unban. */
  predicate BannedAt(cfg: Config, events: seq<Event>, k: nat, ip: Ip) {
    k < |events| && BansAt(cfg, events, k, ip) && forall i | k < i < |events| :: !UnbansAt(cfg, events, i, ip)
  }

  lemma SameBans(cfg: Config, events: seq<Event>, k: nat, ip: Ip)
    requires k < |events| - 1
    ensures BansAt(cfg, events, k, ip) == BansAt(cfg, Front(events), k, ip)
    ensures UnbansAt(cfg, events, k, ip) == UnbansAt(cfg, Front(events), k, ip)
  {
    PrefixOfFront(events, k);
  }

  lemma LastBans(cfg: Config, events: seq<Event>, ip: Ip)
    requires events != []
    ensures var s, e := Run(cfg, Front(events)).0, Last(events);
            && BansAt(cfg, events, |events| - 1, ip) == Bans(cfg, s, e, ip)
            && UnbansAt(cfg, events, |events| - 1, ip) == Unbans(cfg, s, e, ip)
            && (ip in Run(cfg, events).0.blocklist <==>
                Bans(cfg, s, e, ip) || (ip in Run(cfg, Front(events)).0.blocklist && !Unbans(cfg, s, e, ip)))
  {
    assert events[..|events| - 1] == Front(events);
    BlocklistAfter(cfg, Run(cfg, Front(events)).0, Last(events), ip);
  }

  lemma BannedAtFront(cfg: Config, events: seq<Event>, k: nat, ip: Ip)
    requires k < |events| - 1
    ensures BannedAt(cfg, events, k, ip) <==>
              BannedAt(cfg, Front(events), k, ip) && !UnbansAt(cfg, events, |events| - 1, ip)
  {
    forall i: nat | k <= i < |events| - 1
      ensures BansAt(cfg, events, i, ip) == BansAt(cfg, Front(events), i, ip)
      ensures UnbansAt(cfg, events, i, ip) == UnbansAt(cfg, Front(events), i, ip)
    {
      SameBans(cfg, events, i, ip);
    }
  }

  /** One event either bans the IP, or leaves it banned by an earlier one. */
  lemma BannedSnoc(cfg: Config, events: seq<Event>, ip: Ip)
    requires events != []
    ensures (exists k :: BannedAt(cfg, events, k, ip)) <==>
              || BansAt(cfg, events, |events| - 1, ip)
              || ((exists k :: BannedAt(cfg, Front(events), k, ip)) && !UnbansAt(cfg, events, |events| - 1, ip))
  {
    if BansAt(cfg, events, |events| - 1, ip) {
      assert BannedAt(cfg, events, |events| - 1, ip);
    }
    if k: nat :| BannedAt(cfg, Front(events), k, ip) {
      BannedAtFront(cfg, events, k, ip);
    }
    if k: nat :| BannedAt(cfg, events, k, ip) {
      if k < |events| - 1 {
        BannedAtFront(cfg, events, k, ip);
      }
    }
  }

  /** Main result for bans: over any run, an IP is on the block list exactly when a command that names it and carries
      the hash of a password banned it and none has unbanned it since. */
  lemma {:induction false} BannedIff(cfg: Config, events: seq<Event>, ip: Ip)
    ensures ip in Run(cfg, events).0.blocklist <==> exists k :: BannedAt(cfg, events, k, ip)
  {
    if events != [] {
      BannedIff(cfg, Front(events), ip);
      LastBans(cfg, events, ip);
      BannedSnoc(cfg, events, ip);
    }
  }

  /** Whatever a banned IP sends does nothing and is not answered. */
  lemma BannedAreIgnored(cfg: Config, events: seq<Event>, k: nat, e: Event)
    requires BannedAt(cfg, events, k, e.from.ip)
    ensures Step(cfg, Run(cfg, events).0, e) == (Run(cfg, events).0, [])
  {
    BannedIff(cfg, events, e.from.ip);
  }

  // Wrong hashes over whole runs

  /** A challenged command whose hash is not that of any password. */
  ghost predicate WrongHash(cfg: Config, s: State, e: Event, ip: Ip) {
    && e.from.ip == ip && e.packet.AdminCommand? && Challenged(s, e)
    && !IsAdmin(cfg, e.packet.hash, Challenge(s, ip, e.Now(1)).value.1)
  }

  /** The part of the state that remembers wrong hashes. */
  predicate Penalised(s: State, ip: Ip, time: nat) {
    ip in s.adminLimit.entries && s.adminLimit.entries[ip] == Timed(time, ())
  }

  lemma {:induction false} BanLeavesLimit(s: State, ips: seq<Option<Ip>>, e: Event, i: nat)
    ensures BanAll(s, ips, e, i).adminLimit == s.adminLimit
    decreases |ips|
  {
    if ips != [] {
      BanLeavesLimit(if ips[0].Some? then BanIp(s, ips[0].value, e.Now(i)) else s, ips[1..], e, i + 1);
    }
  }

  /** Only wrong hashes touch it. */
  lemma LimitAfter(cfg: Config, s: State, e: Event)
    ensures Step(cfg, s, e).0.adminLimit
         == if WrongHash(cfg, s, e, e.from.ip) then Insert(s.adminLimit, e.from.ip, (), e.Now(2), e.Now(3)) else s.adminLimit
  {
    if e.packet.AdminCommand? {
      CommandOutcome(cfg, s, e);
      if e.packet.command.Ban? {
        BanLeavesLimit(s, e.packet.command.ips, e, 2);
      }
    }
  }

  lemma StepKeepsPenalty(cfg: Config, s: State, e: Event, start: nat, ip: Ip, time: nat)
    requires e.WellTimed(start) && time <= start && e.End() < time + TICKS_PER_SEC * s.adminLimit.timeout
    ensures Penalised(s, ip, time) ==> !WrongHash(cfg, s, e, ip) && Penalised(Step(cfg, s, e).0, ip, time)
  {
    LimitAfter(cfg, s, e);
    ClockIsMonotone(e, start, 0, 3);
    ValidIffWithinTimeout(time, e.Now(3), s.adminLimit.timeout);
  }

  /** The penalty for a wrong hash at `start` or later. */
  lemma WrongHashIsPenalised(cfg: Config, s: State, e: Event, start: nat, ip: Ip)
    requires e.WellTimed(start) && WrongHash(cfg, s, e, ip)
    requires e.End() < e.Now(2) + TICKS_PER_SEC * s.adminLimit.timeout
    ensures Penalised(Step(cfg, s, e).0, ip, e.Now(2))
  {
    LimitAfter(cfg, s, e);
    ClockIsMonotone(e, start, 2, 3);
    ValidIffWithinTimeout(e.Now(2), e.Now(3), s.adminLimit.timeout);
  }

  lemma {:induction false} LimitTimeoutIsFixed(cfg: Config, events: seq<Event>)
    ensures Run(cfg, events).0.adminLimit.timeout == cfg.adminTimeout
  {
    if events != [] {
      LimitTimeoutIsFixed(cfg, Front(events));
      LimitAfter(cfg, Run(cfg, Front(events)).0, Last(events));
    }
  }

  /** Event `k` is a wrong hash of the IP that is less than the admin timeout old. */
  ghost predicate WrongHashAt(cfg: Config, events: seq<Event>, k: nat, ip: Ip, now: nat) {
    && k < |events| && WrongHash(cfg, Run(cfg, events[..k]).0, events[k], ip)
    && 0 < cfg.adminTimeout && now < events[k].Now(2) + TICKS_PER_SEC * cfg.adminTimeout
  }

  lemma {:induction false} PenaltyLasts(cfg: Config, events: seq<Event>, k: nat, ip: Ip, now: nat)
    requires WellTimedRun(events) && EndOf(events) <= now
    ensures WrongHashAt(cfg, events, k, ip, now) ==> Penalised(Run(cfg, events).0, ip, events[k].Now(2))
  {
    if WrongHashAt(cfg, events, k, ip, now) {
      var front, e := Front(events), Last(events);
      ClockIsMonotone(e, EndOf(front), 2, 2);
      LimitTimeoutIsFixed(cfg, front);
      if k == |front| {
        assert events[..k] == front;
        WrongHashIsPenalised(cfg, Run(cfg, front).0, e, EndOf(front), ip);
      } else {
        PenaltyLasts(cfg, front, k, ip, now);
        assert front[..k] == events[..k];
        RunIsTimed(front, k + 1);
        EndsGrow(front, k + 1);
        assert front[..k + 1][..k] == front[..k];
        ClockIsMonotone(events[k], EndOf(front[..k]), 2, 2);
        StepKeepsPenalty(cfg, Run(cfg, front).0, e, EndOf(front), ip, events[k].Now(2));
      }
    }
  }

  /** Every stored penalty comes from a wrong hash. */
  lemma {:induction false} PenaltiesAreDeserved(cfg: Config, events: seq<Event>, ip: Ip) returns (k: nat)
    requires ip in Run(cfg, events).0.adminLimit.entries
    ensures k < |events| && WrongHash(cfg, Run(cfg, events[..k]).0, events[k], ip)
    ensures Run(cfg, events).0.adminLimit.entries[ip].time == events[k].Now(2)
  {
    if events != [] {
      var front, e := Front(events), Last(events);
      var s := Run(cfg, front).0;
      LimitAfter(cfg, s, e);
      if WrongHash(cfg, s, e, ip) && Run(cfg, events).0.adminLimit.entries[ip].time == e.Now(2) {
        k := |front|;
        assert events[..k] == front;
      } else {
        k := PenaltiesAreDeserved(cfg, front, ip);
        assert front[..k] == events[..k];
      }
    }
  }

  /** Main result for wrong hashes: over any run, an IP is limited exactly while it has sent a wrong hash for its
      challenge less than the admin timeout ago. */
  lemma LimitedIff(cfg: Config, events: seq<Event>, ip: Ip, now: nat)
    requires WellTimedRun(events) && EndOf(events) <= now
    ensures Limited(Run(cfg, events).0, ip, now) <==> exists k :: WrongHashAt(cfg, events, k, ip, now)
  {
    LimitTimeoutIsFixed(cfg, events);
    if Limited(Run(cfg, events).0, ip, now) {
      var k := PenaltiesAreDeserved(cfg, events, ip);
      assert WrongHashAt(cfg, events, k, ip, now);
    }
    if k :| WrongHashAt(cfg, events, k, ip, now) {
      PenaltyLasts(cfg, events, k, ip, now);
    }
  }

  /** While it is, whatever it sends to the admin interface does nothing and is not answered. */
  lemma LimitedAreIgnored(cfg: Config, events: seq<Event>, k: nat, e: Event)
    requires WellTimedRun(events) && e.WellTimed(EndOf(events)) && (e.packet.AdminChallenge? || e.packet.AdminCommand?)
    requires WrongHashAt(cfg, events, k, e.from.ip, e.Now(0))
    ensures Step(cfg, Run(cfg, events).0, e) == (Run(cfg, events).0, [])
  {
    ClockIsMonotone(e, EndOf(events), 0, 0);
    LimitedIff(cfg, events, e.from.ip, e.Now(0));
    LimitTimeoutIsFixed(cfg, events);
    AllowedIff(Run(cfg, events).0, e);
  }

  // Admins over whole runs

  /** Event `k` issued the numbers to the IP, and since then it was issued no others and had no command executed. */
  predicate IssuedLast(cfg: Config, events: seq<Event>, k: nat, ip: Ip, numbers: (u32, u32)) {
    && k < |events|
    && AdminIssued(ip, numbers.0, numbers.1, events[k].Now(1)) in Step(cfg, Run(cfg, events[..k]).0, events[k]).1
    && forall i | k < i < |events| :: LeavesNumbers(cfg, Run(cfg, events[..i]).0, events[i], ip)
  }

  predicate LeavesNumbers(cfg: Config, s: State, e: Event, ip: Ip) {
    forall act | act in Step(cfg, s, e).1 :: (act.AdminIssued? || act.CommandRun?) ==> act.ip != ip
  }

  predicate HoldsNumbers(s: State, ip: Ip, entry: Timed<(u32, u32)>) {
    ip in s.adminChallenges.entries && s.adminChallenges.entries[ip] == entry
  }

  /** What happens to the stored numbers in one step. */
  lemma NumbersAfter(cfg: Config, s: State, e: Event)
    ensures Step(cfg, s, e).0.adminChallenges
         == if e.packet.AdminChallenge? && Step(cfg, s, e).1 != [] then
              Insert(s.adminChallenges, e.from.ip, e.random, e.Now(1), e.Now(2))
            else if Executed(cfg, s, e) then Remove(s.adminChallenges, e.from.ip)
            else s.adminChallenges
  {
    if e.packet.AdminCommand? {
      CommandOutcome(cfg, s, e);
    }
  }

  lemma StepKeepsNumbers(cfg: Config, s: State, e: Event, start: nat, ip: Ip, entry: Timed<(u32, u32)>)
    requires HoldsNumbers(s, ip, entry) && e.WellTimed(start) && LeavesNumbers(cfg, s, e, ip)
    requires IsValid(entry.time, e.End(), s.adminChallenges.timeout)
    ensures HoldsNumbers(Step(cfg, s, e).0, ip, entry)
  {
    NumbersAfter(cfg, s, e);
    ClockIsMonotone(e, start, 2, 2);
    LaterLiveWasLive(entry, e.Now(2), e.End(), s.adminChallenges.timeout);
    if Step(cfg, s, e).1 != [] {
      assert Step(cfg, s, e).1[0] in Step(cfg, s, e).1;
      if e.packet.AdminCommand? {
        CommandOutcome(cfg, s, e);
      }
    }
  }

  /** An unlimited sender that is let in is issued the numbers that were drawn. */
  lemma AdminIsChallenged(cfg: Config, s: State, e: Event)
    requires e.packet.AdminChallenge?
    ensures Step(cfg, s, e).1
         == if e.from.ip !in s.blocklist && !Limited(s, e.from.ip, e.Now(0)) then
              [AdminIssued(e.from.ip, e.random.0, e.random.1, e.Now(1))]
            else []
  {
    AllowedIff(s, e);
  }

  lemma IssuedNumbersAreStored(cfg: Config, s: State, e: Event, start: nat, ip: Ip, numbers: (u32, u32))
    requires e.WellTimed(start) && AdminIssued(ip, numbers.0, numbers.1, e.Now(1)) in Step(cfg, s, e).1
    requires IsValid(e.Now(1), e.End(), s.adminChallenges.timeout)
    ensures HoldsNumbers(Step(cfg, s, e).0, ip, Timed(e.Now(1), numbers))
  {
    NumbersAfter(cfg, s, e);
    ClockIsMonotone(e, start, 2, 2);
    ValidityIsMonotone(e.Now(1), e.Now(1), e.Now(2), e.End(), s.adminChallenges.timeout);
    if e.packet.AdminCommand? {
      CommandOutcome(cfg, s, e);
    }
  }

  lemma {:induction false} NumbersAreKept(cfg: Config, events: seq<Event>, k: nat, ip: Ip, numbers: (u32, u32))
    requires WellTimedRun(events)
    ensures IssuedLast(cfg, events, k, ip, numbers) && IsValid(events[k].Now(1), EndOf(events), cfg.challengeTimeout) ==>
              HoldsNumbers(Run(cfg, events).0, ip, Timed(events[k].Now(1), numbers))
  {
    if IssuedLast(cfg, events, k, ip, numbers) && IsValid(events[k].Now(1), EndOf(events), cfg.challengeTimeout) {
      var front, e := Front(events), Last(events);
      CommandsSpendChallenges(cfg, front);
      assert events[..|front|] == front;
      if k == |front| {
        IssuedNumbersAreStored(cfg, Run(cfg, front).0, e, EndOf(front), ip, numbers);
      } else {
        assert front[..k] == events[..k];
        assert forall i | k < i < |front| :: front[..i] == events[..i];
        assert IssuedLast(cfg, front, k, ip, numbers);
        ClockIsMonotone(e, EndOf(front), 0, 0);
        ValidityIsMonotone(events[k].Now(1), events[k].Now(1), EndOf(front), EndOf(events), cfg.challengeTimeout);
        NumbersAreKept(cfg, front, k, ip, numbers);
        StepKeepsNumbers(cfg, Run(cfg, front).0, e, EndOf(front), ip, Timed(events[k].Now(1), numbers));
      }
    }
  }

  /** The IP is not banned and has sent no wrong hash for the admin timeout. */
  ghost predicate InGoodStanding(cfg: Config, events: seq<Event>, ip: Ip, now: nat) {
    forall i :: !BannedAt(cfg, events, i, ip) && !WrongHashAt(cfg, events, i, ip, now)
  }

  /** Main result for admins: over any run, a command is executed if its sender returns in time the first of the
      numbers last issued to it, with the hash of a password and the second, and is in good standing. */
  lemma AdminsAreObeyed(cfg: Config, events: seq<Event>, k: nat, e: Event, salt: u32)
    requires WellTimedRun(events) && e.WellTimed(EndOf(events)) && e.packet.AdminCommand?
    requires IsAdmin(cfg, e.packet.hash, salt) && cfg.challengeTimeout > 0
    ensures InGoodStanding(cfg, events, e.from.ip, e.Now(0))
            && IssuedLast(cfg, events, k, e.from.ip, (e.packet.masterChallenge, salt))
            && e.Now(1) < events[k].Now(1) + TICKS_PER_SEC * cfg.challengeTimeout
        ==> CommandRun(e.from.ip, e.packet.masterChallenge, salt, e.Now(1)) in Step(cfg, Run(cfg, events).0, e).1
  {
    var s, numbers := Run(cfg, events).0, (e.packet.masterChallenge, salt);
    if InGoodStanding(cfg, events, e.from.ip, e.Now(0)) && IssuedLast(cfg, events, k, e.from.ip, numbers)
       && e.Now(1) < events[k].Now(1) + TICKS_PER_SEC * cfg.challengeTimeout {
      ClockIsMonotone(e, EndOf(events), 0, 1);
      ValidIffWithinTimeout(events[k].Now(1), EndOf(events), cfg.challengeTimeout);
      NumbersAreKept(cfg, events, k, e.from.ip, numbers);
      CommandsSpendChallenges(cfg, events);
      BannedIff(cfg, events, e.from.ip);
      LimitedIff(cfg, events, e.from.ip, e.Now(0));
      assert !Limited(s, e.from.ip, e.Now(0));
      CommandRunsIff(cfg, s, e, CommandRun(e.from.ip, numbers.0, salt, e.Now(1)));
    }
  }

  /** And a command that is executed was sent by such an admin. */
  lemma OnlyAdminsAreObeyed(cfg: Config, events: seq<Event>, e: Event, act: Action)
    requires WellTimedRun(events) && e.WellTimed(EndOf(events))
    requires act.CommandRun? && act in Step(cfg, Run(cfg, events).0, e).1
    ensures e.packet.AdminCommand? && act.ip == e.from.ip && IsAdmin(cfg, e.packet.hash, act.salt)
    ensures InGoodStanding(cfg, events, e.from.ip, e.Now(0))
    ensures act.master == e.packet.masterChallenge
    ensures exists t: nat :: AdminIssued(act.ip, act.master, act.salt, t) in Run(cfg, events).1
                     && e.Now(1) < t + TICKS_PER_SEC * cfg.challengeTimeout
  {
    var (s, log) := Run(cfg, events);
    CommandRunsIff(cfg, s, e, act);
    BannedIff(cfg, events, e.from.ip);
    ClockIsMonotone(e, EndOf(events), 0, 0);
    LimitedIff(cfg, events, e.from.ip, e.Now(0));
    LimitTimeoutIsFixed(cfg, events);
    CommandsSpendChallenges(cfg, events);
    IssuedToSender(s, log, act);
  }

  lemma IssuedToSender(s: State, log: seq<Action>, act: Action)
    requires act.CommandRun? && AdminInv(s, log) && act.ip in s.adminChallenges.entries
    requires s.adminChallenges.entries[act.ip].value == (act.master, act.salt)
    ensures AdminIssued(act.ip, act.master, act.salt, s.adminChallenges.entries[act.ip].time) in log
  {
    var tickets := AdminTickets(log);
    var i: nat :| Tickets.IssuedAt(tickets, act.ip, s.adminChallenges.entries[act.ip], i);
    assert tickets[i] == AdminTicket(log[i]);
  }
}
