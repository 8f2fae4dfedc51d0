/** How many game requests of one IP a run accepts. */
module RegistryRateLimit {
  import opened Prelude
  import opened Types
  import opened Clock
  import opened TimedMap
  import opened TimedMapRefinement
  import opened Registry
  import opened RegistrySafety
  import opened RegistryChallenges

  predicate Counts(a: Action, ip: Ip, from: nat, to: nat) {
    a.GameAccepted? && a.ip == ip && from <= a.time <= to
  }

  /** Game requests of `ip` accepted at a reading in [from, to]. */
  function Accepted(log: seq<Action>, ip: Ip, from: nat, to: nat): nat {
    if log == [] then 0 else
    var last := |log| - 1;
    Accepted(log[..last], ip, from, to) + if Counts(log[last], ip, from, to) then 1 else 0
  }

  lemma {:induction false} AcceptedAppend(log: seq<Action>, more: seq<Action>, ip: Ip, from: nat, to: nat)
    ensures Accepted(log + more, ip, from, to) == Accepted(log, ip, from, to) + Accepted(more, ip, from, to)
  {
    if more == [] {
      assert log + more == log;
    } else {
      var last := |more| - 1;
      AcceptedAppend(log, more[..last], ip, from, to);
      assert (log + more)[..|log + more| - 1] == log + more[..last];
    }
  }

  /** The latest counting window of an IP: its first request, the stamp of its counter, and the count. */
  datatype Window = Window(first: nat, created: nat, count: u32)

  /** The window is in the map, or too old to be found again. */
  predicate Tracks(rate: Store<Ip, u32>, ip: Ip, w: Option<Window>, now: nat) {
    match w
    case None => ip !in rate.entries
    case Some(w) =>
      && w.first <= w.created && w.first <= now
      && (if ip in rate.entries then rate.entries[ip] == Timed(w.created, w.count)
          else !IsValid(w.created, now, rate.timeout))
  }

  /** `limit` requests for each window that can have begun by `t` after `from`, the one that began
      before `from` not included. */
  function Allowance(limit: nat, from: nat, t: nat): nat
    requires from <= t
  {
    limit * ((t - from) / TICKS_PER_SEC + 1)
  }

  predicate WithinBudget(limit: nat, from: nat, w: Option<Window>, n: nat) {
    match w
    case None => n == 0
    case Some(w) =>
      n <= Min(w.count, limit) + if w.first < from then 0 else Allowance(limit, from, w.first)
  }

  lemma AllowanceGrows(limit: nat, from: nat, t: nat, t': nat)
    requires from <= t <= t'
    ensures Allowance(limit, from, t) <= Allowance(limit, from, t')
  {
    var x := (t - from) / TICKS_PER_SEC + 1;
    var y := (t' - from) / TICKS_PER_SEC + 1;
    assert x <= y;
    MulGrows(limit, x, y);
  }

  lemma AllowanceOfNextWindow(limit: nat, from: nat, t: nat, t': nat)
    requires from <= t && t + TICKS_PER_SEC <= t'
    ensures Allowance(limit, from, t) + limit <= Allowance(limit, from, t')
  {
    var x := (t - from) / TICKS_PER_SEC + 1;
    var y := (t' - from) / TICKS_PER_SEC + 1;
    assert x + 1 <= y;
    MulGrows(limit, x + 1, y);
  }

  lemma MulGrows(k: nat, x: nat, y: nat)
    requires x <= y
    ensures k * x <= k * y
  {
    assert k * y == k * x + k * (y - x);
  }

  lemma StillTracks(rate: Store<Ip, u32>, rate': Store<Ip, u32>, ip: Ip, w: Option<Window>, now: nat, later: nat)
    requires Tracks(rate, ip, w, now) && now <= later && rate'.timeout == rate.timeout
    requires ip in rate'.entries ==> ip in rate.entries && rate'.entries[ip] == rate.entries[ip]
    requires ip in rate.entries && Live(rate.entries[ip], later, rate.timeout) ==> ip in rate'.entries
    ensures Tracks(rate', ip, w, later)
  {
    if w.Some? && !IsValid(w.value.created, now, rate.timeout) {
      ValidityIsMonotone(w.value.created, w.value.created, now, later, rate.timeout);
    }
  }

  /** One request of the counted IP. */
  lemma RequestOfIp(cfg: Config, rate: Store<Ip, u32>, ip: Ip, t: (nat, nat), w: Option<Window>, now: nat, from: nat, n: nat)
    returns (w': Option<Window>)
    requires 0 < cfg.clientRateLimit < 0xffff_ffff && rate.timeout == 1 && now <= t.0 <= t.1
    requires Tracks(rate, ip, w, now) && WithinBudget(cfg.clientRateLimit, from, w, n)
    requires t.0 < from ==> n == 0
    ensures var (rate', ok) := AllowGameRequest(cfg, rate, ip, t);
            && rate'.timeout == 1 && Tracks(rate', ip, w', t.1)
            && w'.Some? && w'.value.first <= t.0
            && WithinBudget(cfg.clientRateLimit, from, w', if ok && from <= t.0 then n + 1 else n)
  {
    var m := OpenEntry(rate, ip, t.0);
    if ip in m.entries {
      w' := Some(w.value.(count := SaturatingInc(w.value.count)));
    } else {
      w' := Some(Window(t.0, t.1, 1));
      if from <= t.0 {
        NewWindowBudget(cfg, rate, ip, t.0, w, now, from, n);
      }
    }
  }

  /** By the time a new window opens, the old one is a whole second behind. */
  lemma NewWindowBudget(cfg: Config, rate: Store<Ip, u32>, ip: Ip, t: nat, w: Option<Window>, now: nat, from: nat, n: nat)
    requires rate.timeout == 1 && now <= t && ip !in OpenEntry(rate, ip, t).entries
    requires Tracks(rate, ip, w, now) && WithinBudget(cfg.clientRateLimit, from, w, n)
    requires from <= t
    ensures n <= Allowance(cfg.clientRateLimit, from, t)
  {
    var limit := cfg.clientRateLimit;
    AllowanceGrows(limit, from, from, t);
    assert Allowance(limit, from, from) == limit;
    if w.Some? {
      var created := w.value.created;
      if ip !in rate.entries {
        ValidityIsMonotone(created, created, now, t, 1);
      }
      ValidIffWithinTimeout(created, t, 1);
      if from <= w.value.first {
        AllowanceOfNextWindow(limit, from, w.value.first, t);
      }
    }
  }

  /** The bound itself: one window that began before the interval, one that begins with it, and one more
      for every full second of it. */
  function Cap(limit: nat, from: nat, to: nat): nat
    requires from <= to
  {
    limit * ((to - from) / TICKS_PER_SEC + 2)
  }

  ghost predicate RateInv(
      cfg: Config, s: State, log: seq<Action>, now: nat, ip: Ip, from: nat, to: nat, w: Option<Window>)
    requires from <= to
  {
    var n := Accepted(log, ip, from, to);
    && s.clientRate.timeout == 1 && Tracks(s.clientRate, ip, w, now)
    && WithinBudget(cfg.clientRateLimit, from, w, n) && (now < from ==> n == 0)
    && n <= Cap(cfg.clientRateLimit, from, to)
  }

  lemma BudgetIsWithinCap(limit: nat, from: nat, to: nat, w: Window, n: nat)
    requires from <= to && w.first <= to && WithinBudget(limit, from, Some(w), n)
    ensures n <= Cap(limit, from, to)
  {
    var q := (to - from) / TICKS_PER_SEC;
    assert Cap(limit, from, to) == limit + limit * (q + 1) by {
      assert limit * (q + 2) == limit + limit * (q + 1);
    }
    if from <= w.first {
      AllowanceGrows(limit, from, w.first, to);
    }
  }

  /** A packet that leaves the counters alone, or counts for another IP. */
  lemma IdleKeepsRate(
      cfg: Config, s: State, s': State, log: seq<Action>, actions: seq<Action>, now: nat, later: nat,
      ip: Ip, from: nat, to: nat, w: Option<Window>)
    requires from <= to && RateInv(cfg, s, log, now, ip, from, to, w) && now <= later
    requires s'.clientRate.timeout == s.clientRate.timeout
    requires ip in s'.clientRate.entries ==>
               ip in s.clientRate.entries && s'.clientRate.entries[ip] == s.clientRate.entries[ip]
    requires ip in s.clientRate.entries && Live(s.clientRate.entries[ip], later, 1) ==> ip in s'.clientRate.entries
    requires Accepted(actions, ip, from, to) == 0
    ensures RateInv(cfg, s', log + actions, later, ip, from, to, w)
  {
    StillTracks(s.clientRate, s'.clientRate, ip, w, now, later);
    AcceptedAppend(log, actions, ip, from, to);
  }

  lemma {:induction false} NoneAccepted(actions: seq<Action>, ip: Ip, from: nat, to: nat)
    requires forall a | a in actions :: !Counts(a, ip, from, to)
    ensures Accepted(actions, ip, from, to) == 0
  {
    if actions != [] {
      NoneAccepted(actions[..|actions| - 1], ip, from, to);
    }
  }

  lemma GameRequestKeepsRate(
      cfg: Config, s: State, e: Event, log: seq<Action>, start: nat, from: nat, to: nat, w: Option<Window>)
    returns (w': Option<Window>)
    requires from <= to && 0 < cfg.clientRateLimit < 0xffff_ffff && e.WellTimed(start)
    requires e.packet.QueryServers? || e.packet.GetServerInfo?
    requires RateInv(cfg, s, log, start, e.from.ip, from, to, w)
    ensures var (s', actions) := HandleGameRequest(cfg, s, e);
            RateInv(cfg, s', log + actions, e.End(), e.from.ip, from, to, w')
  {
    var ip, limit := e.from.ip, cfg.clientRateLimit;
    var n := Accepted(log, ip, from, to);
    ClockIsMonotone(e, start, 0, 1);
    w' := RequestOfIp(cfg, s.clientRate, ip, (e.Now(0), e.Now(1)), w, start, from, if e.Now(0) < from then 0 else n);
    var (s', actions) := HandleGameRequest(cfg, s, e);
    AcceptedAppend(log, actions, ip, from, to);
    StillTracks(s'.clientRate, s'.clientRate, ip, w', e.Now(1), e.End());
    AcceptedOfGameRequest(cfg, s, e, from, to);
    if Accepted(actions, ip, from, to) == 1 {
      BudgetIsWithinCap(limit, from, to, w'.value, n + 1);
    }
  }

  /** A game request counts once, however it is answered. */
  lemma GameRequestActions(cfg: Config, s: State, e: Event)
    requires e.packet.QueryServers? || e.packet.GetServerInfo?
    ensures var (s', actions) := HandleGameRequest(cfg, s, e);
            var (rate, ok) := AllowGameRequest(cfg, s.clientRate, e.from.ip, (e.Now(0), e.Now(1)));
            && s'.clientRate == rate
            && (ok <==> actions != []) && (ok ==> actions[0] == GameAccepted(e.from.ip, e.Now(0)))
            && (ok ==> forall a | a in actions[1..] :: !a.GameAccepted?)
  {
  }

  lemma AcceptedOfGameRequest(cfg: Config, s: State, e: Event, from: nat, to: nat)
    requires e.packet.QueryServers? || e.packet.GetServerInfo?
    ensures var (s', actions) := HandleGameRequest(cfg, s, e);
            var (rate, ok) := AllowGameRequest(cfg, s.clientRate, e.from.ip, (e.Now(0), e.Now(1)));
            && s'.clientRate == rate
            && Accepted(actions, e.from.ip, from, to) == if ok && from <= e.Now(0) <= to then 1 else 0
  {
    GameRequestActions(cfg, s, e);
    var ip, actions := e.from.ip, HandleGameRequest(cfg, s, e).1;
    if actions != [] {
      assert actions == [actions[0]] + actions[1..];
      AcceptedAppend([actions[0]], actions[1..], ip, from, to);
      NoneAccepted(actions[1..], ip, from, to);
      assert Accepted([], ip, from, to) == 0 && [actions[0]][..0] == [];
    }
  }

  /** A game request of another IP can only sweep this one's stale counter away. */
  lemma OtherRequestKeepsRate(
      cfg: Config, s: State, e: Event, log: seq<Action>, start: nat, ip: Ip, from: nat, to: nat, w: Option<Window>)
    requires from <= to && e.WellTimed(start) && ip != e.from.ip
    requires e.packet.QueryServers? || e.packet.GetServerInfo?
    requires RateInv(cfg, s, log, start, ip, from, to, w)
    ensures var (s', actions) := HandleGameRequest(cfg, s, e);
            RateInv(cfg, s', log + actions, e.End(), ip, from, to, w)
  {
    var (s', actions) := HandleGameRequest(cfg, s, e);
    ClockIsMonotone(e, start, 0, 0);
    GameRequestActions(cfg, s, e);
    assert actions != [] ==> forall a | a in actions :: a == actions[0] || a in actions[1..];
    NoneAccepted(actions, ip, from, to);
    if ip in s.clientRate.entries && Live(s.clientRate.entries[ip], e.End(), 1) {
      LaterLiveWasLive(s.clientRate.entries[ip], e.Now(0), e.End(), 1);
    }
    AcceptedOfGameRequest(cfg, s, e, from, to);
    IdleKeepsRate(cfg, s, s', log, actions, start, e.End(), ip, from, to, w);
  }

  lemma StepKeepsRate(
      cfg: Config, s: State, e: Event, log: seq<Action>, start: nat, ip: Ip, from: nat, to: nat, w: Option<Window>)
    returns (w': Option<Window>)
    requires from <= to && 0 < cfg.clientRateLimit < 0xffff_ffff && e.WellTimed(start)
    requires RateInv(cfg, s, log, start, ip, from, to, w)
    ensures RateInv(cfg, Step(cfg, s, e).0, log + Step(cfg, s, e).1, e.End(), ip, from, to, w')
  {
    w' := w;
    if e.from.ip !in s.blocklist && (e.packet.QueryServers? || e.packet.GetServerInfo?) {
      if ip == e.from.ip {
        w' := GameRequestKeepsRate(cfg, s, e, log, start, from, to, w);
      } else {
        OtherRequestKeepsRate(cfg, s, e, log, start, ip, from, to, w);
      }
    } else {
      var (s', actions) := Step(cfg, s, e);
      ClockIsMonotone(e, start, 0, 0);
      OtherPacketsLeaveRate(cfg, s, e);
      NoneAccepted(actions, ip, from, to);
      IdleKeepsRate(cfg, s, s', log, actions, start, e.End(), ip, from, to, w);
    }
  }

  lemma OtherPacketsLeaveRate(cfg: Config, s: State, e: Event)
    requires e.from.ip in s.blocklist || !(e.packet.QueryServers? || e.packet.GetServerInfo?)
    ensures Step(cfg, s, e).0.clientRate == s.clientRate
    ensures forall a | a in Step(cfg, s, e).1 :: !a.GameAccepted?
  {
    if e.packet.AdminCommand? {
      CommandLeavesChallenges(s, e.packet.command, e);
    }
  }

  lemma {:induction false} RunKeepsRate(cfg: Config, events: seq<Event>, ip: Ip, from: nat, to: nat)
    returns (w: Option<Window>)
    requires from <= to && 0 < cfg.clientRateLimit < 0xffff_ffff && WellTimedRun(events)
    ensures RateInv(cfg, Run(cfg, events).0, Run(cfg, events).1, EndOf(events), ip, from, to, w)
  {
    if events == [] {
      w := None;
      assert Cap(cfg.clientRateLimit, from, to) >= 0;
    } else {
      var last := |events| - 1;
      w := RunKeepsRate(cfg, events[..last], ip, from, to);
      var (s, log) := Run(cfg, events[..last]);
      w := StepKeepsRate(cfg, s, events[last], log, EndOf(events[..last]), ip, from, to, w);
    }
  }

  /** Main result: over any run, whatever other IPs send and whenever counters are swept, an IP gets at
      most limit * (ticks / 125 + 2) game requests accepted within any interval of `ticks` ticks. */
  lemma AcceptedRequestsAreBounded(cfg: Config, events: seq<Event>, ip: Ip, from: nat, ticks: nat)
    requires 0 < cfg.clientRateLimit < 0xffff_ffff && WellTimedRun(events)
    ensures Accepted(Run(cfg, events).1, ip, from, from + ticks)
         <= cfg.clientRateLimit * (ticks / TICKS_PER_SEC + 2)
  {
    var w := RunKeepsRate(cfg, events, ip, from, from + ticks);
  }

  predicate IsGameRequest(e: Event, ip: Ip) {
    e.from.ip == ip && (e.packet.QueryServers? || e.packet.GetServerInfo?)
  }

  /** How many game requests of an IP ended at `time` or later. */
  function RequestsSince(events: seq<Event>, ip: Ip, time: int): nat {
    if events == [] then 0 else
    var last := |events| - 1;
    RequestsSince(events[..last], ip, time) +
    if IsGameRequest(events[last], ip) && time <= events[last].End() then 1 else 0
  }

  lemma {:induction false} EarlierCountsMore(events: seq<Event>, ip: Ip, time: int, time': int)
    requires time' <= time
    ensures RequestsSince(events, ip, time) <= RequestsSince(events, ip, time')
  {
    if events != [] {
      EarlierCountsMore(events[..|events| - 1], ip, time, time');
    }
  }

  /** A stored counter has counted no more than the requests since its stamp. */
  predicate CountsRequests(rate: Store<Ip, u32>, events: seq<Event>, ip: Ip) {
    && rate.timeout == 1
    && (ip in rate.entries ==>
          && rate.entries[ip].time <= EndOf(events)
          && rate.entries[ip].value <= RequestsSince(events, ip, rate.entries[ip].time))
  }

  /** What a request makes of the counter of an IP: nothing, one more, or a new one. */
  lemma CounterAfter(cfg: Config, rate: Store<Ip, u32>, from: Ip, t: (nat, nat), ip: Ip)
    ensures var after := AllowGameRequest(cfg, rate, from, t).0;
            && after.timeout == rate.timeout
            && (ip in after.entries ==>
                  || (ip in rate.entries && after.entries[ip] == rate.entries[ip])
                  || (from == ip && ip in rate.entries && after.entries[ip].time == rate.entries[ip].time
                      && after.entries[ip].value as int <= rate.entries[ip].value as int + 1)
                  || (from == ip && after.entries[ip] == Timed(t.1, 1)))
  {
  }

  /** Requests of other IPs never count. */
  lemma {:induction false} CounterCountsRequests(cfg: Config, events: seq<Event>, ip: Ip)
    requires WellTimedRun(events)
    ensures CountsRequests(Run(cfg, events).0.clientRate, events, ip)
  {
    if events != [] {
      var last := |events| - 1;
      var s, e := Run(cfg, events[..last]).0, events[last];
      CounterCountsRequests(cfg, events[..last], ip);
      ClockIsMonotone(e, EndOf(events[..last]), 0, 1);
      if e.from.ip in s.blocklist || !(e.packet.QueryServers? || e.packet.GetServerInfo?) {
        OtherPacketsLeaveRate(cfg, s, e);
      } else {
        GameRequestActions(cfg, s, e);
        CounterAfter(cfg, s.clientRate, e.from.ip, (e.Now(0), e.Now(1)), ip);
      }
    }
  }

  /** A counter that is still live has counted requests of the last second only. */
  lemma LiveCounterIsRecent(rate: Store<Ip, u32>, events: seq<Event>, ip: Ip, now: nat)
    requires CountsRequests(rate, events, ip) && ip in rate.entries && Live(rate.entries[ip], now, 1)
    ensures rate.entries[ip].value <= RequestsSince(events, ip, now - TICKS_PER_SEC + 1)
  {
    ValidIffWithinTimeout(rate.entries[ip].time, now, 1);
    EarlierCountsMore(events, ip, rate.entries[ip].time, now - TICKS_PER_SEC + 1);
  }

  /** Fewer counted requests than the limit, or none that are still counted. */
  lemma AllowedBelowLimit(cfg: Config, rate: Store<Ip, u32>, ip: Ip, t: (nat, nat))
    requires cfg.clientRateLimit == 0
          || !(ip in rate.entries && Live(rate.entries[ip], t.0, rate.timeout))
          || rate.entries[ip].value < cfg.clientRateLimit
    ensures AllowGameRequest(cfg, rate, ip, t).1
  {
  }

  lemma AllowedIsAccepted(cfg: Config, s: State, e: Event)
    requires IsGameRequest(e, e.from.ip) && e.from.ip !in s.blocklist
    requires AllowGameRequest(cfg, s.clientRate, e.from.ip, (e.Now(0), e.Now(1))).1
    ensures GameAccepted(e.from.ip, e.Now(0)) in Step(cfg, s, e).1
  {
    GameRequestActions(cfg, s, e);
  }

  lemma QuietIsAllowed(cfg: Config, rate: Store<Ip, u32>, events: seq<Event>, ip: Ip, t: (nat, nat))
    requires CountsRequests(rate, events, ip)
    requires cfg.clientRateLimit == 0 || RequestsSince(events, ip, t.0 - TICKS_PER_SEC + 1) < cfg.clientRateLimit
    ensures AllowGameRequest(cfg, rate, ip, t).1
  {
    if ip in rate.entries && Live(rate.entries[ip], t.0, 1) {
      LiveCounterIsRecent(rate, events, ip, t.0);
    }
    AllowedBelowLimit(cfg, rate, ip, t);
  }

  /** The other half: an IP that has sent fewer requests than the limit in the last second gets the next one
      accepted, whatever it sent before that and however many others there are. */
  lemma QuietClientsAreServed(cfg: Config, events: seq<Event>, e: Event)
    requires WellTimedRun(events) && e.WellTimed(EndOf(events))
    requires IsGameRequest(e, e.from.ip) && e.from.ip !in Run(cfg, events).0.blocklist
    requires cfg.clientRateLimit == 0
          || RequestsSince(events, e.from.ip, e.Now(0) - TICKS_PER_SEC + 1) < cfg.clientRateLimit
    ensures GameAccepted(e.from.ip, e.Now(0)) in Step(cfg, Run(cfg, events).0, e).1
  {
    CounterCountsRequests(cfg, events, e.from.ip);
    QuietIsAllowed(cfg, Run(cfg, events).0.clientRate, events, e.from.ip, (e.Now(0), e.Now(1)));
    AllowedIsAccepted(cfg, Run(cfg, events).0, e);
  }

  // When the limiter rejects

  /** A request that was let in by the block list and turned down by the limiter. */
  predicate RejectedAfter(cfg: Config, events: seq<Event>, e: Event) {
    && WellTimedRun(events) && e.WellTimed(EndOf(events))
    && IsGameRequest(e, e.from.ip) && e.from.ip !in Run(cfg, events).0.blocklist
    && GameAccepted(e.from.ip, e.Now(0)) !in Step(cfg, Run(cfg, events).0, e).1
  }

  /** A request at the first tick. */
  const EARLY := Event(Addr([127, 0, 0, 1], 27005), GetServerInfo(None), [0], (0, 0))

  function Repeated(e: Event, n: nat): seq<Event> {
    seq(n, _ => e)
  }

  /** Requests within one tick are counted one by one. */
  lemma {:induction false} EarlyRequestsAreCounted(cfg: Config, n: nat)
    requires 0 < cfg.clientRateLimit && n <= cfg.clientRateLimit
    ensures WellTimedRun(Repeated(EARLY, n)) && EndOf(Repeated(EARLY, n)) == 0
    ensures var s := Run(cfg, Repeated(EARLY, n)).0;
            && s.blocklist == {} && s.clientRate.timeout == 1
            && (n > 0 ==> EARLY.from.ip in s.clientRate.entries && s.clientRate.entries[EARLY.from.ip] == Timed(0, n))
            && (n == 0 ==> s.clientRate.entries == map[])
  {
    if n > 0 {
      EarlyRequestsAreCounted(cfg, n - 1);
      var events := Repeated(EARLY, n);
      assert events[..|events| - 1] == Repeated(EARLY, n - 1);
      GameRequestActions(cfg, Run(cfg, Repeated(EARLY, n - 1)).0, EARLY);
    }
  }

  /** Some run ends in a rejection exactly when the limit is neither 0, which switches the limiter off, nor the
      largest u32, where the saturating counter never gets past it. One more request than the limit within one
      tick is such a run. */
  lemma LimiterRejectsIffLimitIsProper(cfg: Config)
    ensures (exists events, e :: RejectedAfter(cfg, events, e)) <==> 0 < cfg.clientRateLimit < 0xffff_ffff
  {
    if 0 < cfg.clientRateLimit < 0xffff_ffff {
      var events := Repeated(EARLY, cfg.clientRateLimit);
      EarlyRequestsAreCounted(cfg, cfg.clientRateLimit);
      GameRequestActions(cfg, Run(cfg, events).0, EARLY);
      assert RejectedAfter(cfg, events, EARLY);
    } else {
      forall events, e: Event | IsGameRequest(e, e.from.ip) && e.from.ip !in Run(cfg, events).0.blocklist
        ensures !RejectedAfter(cfg, events, e)
      {
        GameRequestActions(cfg, Run(cfg, events).0, e);
      }
    }
  }
}
