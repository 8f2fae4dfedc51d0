/** What the fake server tells an outdated client about itself: the game directory that the client asked for. */
module RegistryUpdates {
  import opened Prelude
  import opened Types
  import opened Utf8
  import opened Clock
  import opened TimedMap
  import opened TimedMapRefinement
  import opened Registry
  import opened RegistryQueries
  import opened RegistrySafety
  import opened RegistryAnswers

  predicate Accepted(cfg: Config, s: State, e: Event) {
    GameAccepted(e.from.ip, e.Now(0)) in Step(cfg, s, e).1
  }

  /** A query of `a` that is let in but not served, with a game directory that is text of at most 31 bytes. */
  predicate Saves(cfg: Config, s: State, e: Event, a: Addr, gamedir: bytes) {
    && e.from == a && Accepted(cfg, s, e) && e.packet.QueryServers? && e.packet.query.Some?
    && !Served(cfg, e.packet.query.value.filter) && e.packet.query.value.filter.gamedir == Some(gamedir)
    && IsUtf8(gamedir) && |gamedir| <= 31
  }

  /** A request of `a` for the details of the fake server. */
  predicate Takes(cfg: Config, s: State, e: Event, a: Addr) {
    e.from == a && Accepted(cfg, s, e) && e.packet.GetServerInfo? && e.packet.protocol.Some?
  }

  /** Neither of them. */
  ghost predicate Keeps(cfg: Config, s: State, e: Event, a: Addr) {
    !Takes(cfg, s, e, a) && forall gamedir :: !Saves(cfg, s, e, a, gamedir)
  }

  /** The saved game directories after one packet. */
  lemma GamedirsAfter(cfg: Config, s: State, e: Event)
    ensures Takes(cfg, s, e, e.from) ==> Step(cfg, s, e).0.updateGamedir == Remove(s.updateGamedir, e.from)
    ensures forall gamedir | Saves(cfg, s, e, e.from, gamedir) ::
              Step(cfg, s, e).0.updateGamedir == Insert(s.updateGamedir, e.from, gamedir, e.Now(2), e.Now(3))
    ensures Keeps(cfg, s, e, e.from) ==> Step(cfg, s, e).0.updateGamedir == s.updateGamedir
  {
    if e.from.ip !in s.blocklist && e.packet.QueryServers? {
      QueryGamedir(cfg, s, e);
    } else if e.packet.AdminCommand? && e.packet.command.Ban? {
      BanLeavesGamedirs(s, e.packet.command.ips, e, 2);
    }
  }

  lemma QueryGamedir(cfg: Config, s: State, e: Event)
    requires e.packet.QueryServers? && e.from.ip !in s.blocklist
    ensures forall gamedir | Saves(cfg, s, e, e.from, gamedir) ::
              Step(cfg, s, e).0.updateGamedir == Insert(s.updateGamedir, e.from, gamedir, e.Now(2), e.Now(3))
    ensures Keeps(cfg, s, e, e.from) ==> Step(cfg, s, e).0.updateGamedir == s.updateGamedir
  {
    if e.packet.query.Some? {
      var query := e.packet.query.value;
      ServedIff(cfg, query);
      if query.filter.gamedir.Some? {
        assert Keeps(cfg, s, e, e.from) ==> !Saves(cfg, s, e, e.from, query.filter.gamedir.value);
      }
    }
  }

  lemma {:induction false} BanLeavesGamedirs(s: State, ips: seq<Option<Ip>>, e: Event, i: nat)
    ensures BanAll(s, ips, e, i).updateGamedir == s.updateGamedir
    decreases |ips|
  {
    if ips != [] {
      BanLeavesGamedirs(if ips[0].Some? then BanIp(s, ips[0].value, e.Now(i)) else s, ips[1..], e, i + 1);
    }
  }

  predicate HoldsGamedir(s: State, a: Addr, entry: Timed<bytes>) {
    a in s.updateGamedir.entries && s.updateGamedir.entries[a] == entry
  }

  lemma StepKeepsGamedir(cfg: Config, s: State, e: Event, start: nat, a: Addr, entry: Timed<bytes>)
    requires HoldsGamedir(s, a, entry) && e.WellTimed(start) && Keeps(cfg, s, e, a)
    requires IsValid(entry.time, e.End(), s.updateGamedir.timeout)
    ensures HoldsGamedir(Step(cfg, s, e).0, a, entry)
  {
    GamedirsAfter(cfg, s, e);
    ClockIsMonotone(e, start, 3, 3);
    LaterLiveWasLive(entry, e.Now(3), e.End(), s.updateGamedir.timeout);
    if gamedir :| Saves(cfg, s, e, e.from, gamedir) {
      assert e.from != a;
    }
  }

  lemma {:induction false} GamedirTimeoutIsFixed(cfg: Config, events: seq<Event>)
    ensures Run(cfg, events).0.updateGamedir.timeout == 5
  {
    if events != [] {
      var s, e := Run(cfg, Front(events)).0, Last(events);
      GamedirTimeoutIsFixed(cfg, Front(events));
      GamedirsAfter(cfg, s, e);
      if gamedir :| Saves(cfg, s, e, e.from, gamedir) {
        assert Step(cfg, s, e).0.updateGamedir == Insert(s.updateGamedir, e.from, gamedir, e.Now(2), e.Now(3));
      }
    }
  }

  /** Event `k` saved the game directory of `a`, and nothing saved or took one since. */
  ghost predicate SavedLast(cfg: Config, events: seq<Event>, k: nat, a: Addr, gamedir: bytes) {
    && k < |events| && Saves(cfg, Run(cfg, events[..k]).0, events[k], a, gamedir)
    && forall i | k < i < |events| :: KeepsAt(cfg, events, i, a)
  }

  ghost predicate KeepsAt(cfg: Config, events: seq<Event>, i: nat, a: Addr)
    requires i < |events|
  {
    Keeps(cfg, Run(cfg, events[..i]).0, events[i], a)
  }

  lemma SavedLastFront(cfg: Config, events: seq<Event>, k: nat, a: Addr, gamedir: bytes)
    requires k < |events| - 1
    ensures SavedLast(cfg, events, k, a, gamedir) <==>
              SavedLast(cfg, Front(events), k, a, gamedir) && Keeps(cfg, Run(cfg, Front(events)).0, Last(events), a)
  {
    PrefixOfFront(events, k);
    assert events[..|events| - 1] == Front(events);
    assert KeepsAt(cfg, events, |events| - 1, a) == Keeps(cfg, Run(cfg, Front(events)).0, Last(events), a);
    forall i: nat | k < i < |events| - 1
      ensures KeepsAt(cfg, events, i, a) == KeepsAt(cfg, Front(events), i, a)
    {
      PrefixOfFront(events, i);
    }
  }

  /** A saved game directory stays for five seconds. */
  lemma {:induction false} SavedIsKept(cfg: Config, events: seq<Event>, k: nat, a: Addr, gamedir: bytes)
    requires WellTimedRun(events)
    ensures SavedLast(cfg, events, k, a, gamedir) && IsValid(events[k].Now(2), EndOf(events), 5) ==>
              HoldsGamedir(Run(cfg, events).0, a, Timed(events[k].Now(2), gamedir))
  {
    if SavedLast(cfg, events, k, a, gamedir) && IsValid(events[k].Now(2), EndOf(events), 5) {
      var front, e := Front(events), Last(events);
      GamedirTimeoutIsFixed(cfg, front);
      if k == |front| {
        assert events[..k] == front;
        GamedirsAfter(cfg, Run(cfg, front).0, e);
        ClockIsMonotone(e, EndOf(front), 3, 3);
        ValidityIsMonotone(e.Now(2), e.Now(2), e.Now(3), e.End(), 5);
      } else {
        SavedLastFront(cfg, events, k, a, gamedir);
        ClockIsMonotone(e, EndOf(front), 0, 0);
        ValidityIsMonotone(events[k].Now(2), events[k].Now(2), EndOf(front), EndOf(events), 5);
        SavedIsKept(cfg, front, k, a, gamedir);
        StepKeepsGamedir(cfg, Run(cfg, front).0, e, EndOf(front), a, Timed(events[k].Now(2), gamedir));
      }
    }
  }

  /** One step: a stored game directory was stored before and is kept, or the step saves it. */
  lemma StepStoresGamedir(cfg: Config, s: State, e: Event, a: Addr)
    requires a in Step(cfg, s, e).0.updateGamedir.entries
    ensures var entry := Step(cfg, s, e).0.updateGamedir.entries[a];
            || (HoldsGamedir(s, a, entry) && Keeps(cfg, s, e, a))
            || (Saves(cfg, s, e, a, entry.value) && entry.time == e.Now(2))
  {
    GamedirsAfter(cfg, s, e);
    if gamedir :| Saves(cfg, s, e, e.from, gamedir) {
      assert Step(cfg, s, e).0.updateGamedir == Insert(s.updateGamedir, e.from, gamedir, e.Now(2), e.Now(3));
    }
  }

  lemma {:induction false} StoredIsSaved(cfg: Config, events: seq<Event>, a: Addr) returns (k: nat)
    requires a in Run(cfg, events).0.updateGamedir.entries
    ensures k < |events|
    ensures var entry := Run(cfg, events).0.updateGamedir.entries[a];
            SavedLast(cfg, events, k, a, entry.value) && entry.time == events[k].Now(2)
  {
    if events != [] {
      var front, e := Front(events), Last(events);
      var s := Run(cfg, front).0;
      StepStoresGamedir(cfg, s, e, a);
      var entry := Step(cfg, s, e).0.updateGamedir.entries[a];
      if Saves(cfg, s, e, a, entry.value) && entry.time == e.Now(2) {
        k := |front|;
        assert events[..k] == front;
      } else {
        k := StoredIsSaved(cfg, front, a);
        SavedLastFront(cfg, events, k, a, entry.value);
      }
    }
  }

  /** Everything that a request for the details of the fake server makes. */
  lemma UpdateActions(cfg: Config, s: State, e: Event, protocol: byte)
    requires e.packet == GetServerInfo(Some(protocol))
    ensures var m := s.updateGamedir;
            Step(cfg, s, e).1 ==
            if !Accepted(cfg, s, e) then []
            else if e.from in m.entries && IsValid(m.entries[e.from].time, e.Now(2), m.timeout) then
              [GameAccepted(e.from.ip, e.Now(0)), UpdateSent(e.from, protocol, m.entries[e.from].value)]
            else
              [GameAccepted(e.from.ip, e.Now(0)), UpdateSent(e.from, protocol, Ascii("valve"))]
  {
  }

  /** Event `k` saved the game directory less than five seconds ago, and it was not replaced or taken since. */
  ghost predicate SavedRecently(cfg: Config, events: seq<Event>, k: nat, a: Addr, gamedir: bytes, now: nat) {
    SavedLast(cfg, events, k, a, gamedir) && now < events[k].Now(2) + 5 * TICKS_PER_SEC
  }

  /** Main result: over any run, a client that asks for the details of the fake server is told the game directory of its
      last query that was not served, if that is less than five seconds old and was not told yet, and `valve`
      otherwise. */
  lemma UpdateNamesGamedir(cfg: Config, events: seq<Event>, e: Event, protocol: byte, gamedir: bytes)
    requires WellTimedRun(events) && e.WellTimed(EndOf(events)) && e.packet == GetServerInfo(Some(protocol))
    requires Accepted(cfg, Run(cfg, events).0, e)
    ensures UpdateSent(e.from, protocol, gamedir) in Step(cfg, Run(cfg, events).0, e).1 <==>
              || (exists k :: SavedRecently(cfg, events, k, e.from, gamedir, e.Now(2)))
              || (gamedir == Ascii("valve") && forall k, g :: !SavedRecently(cfg, events, k, e.from, g, e.Now(2)))
  {
    var s := Run(cfg, events).0;
    UpdateActions(cfg, s, e, protocol);
    GamedirTimeoutIsFixed(cfg, events);
    ClockIsMonotone(e, EndOf(events), 0, 2);
    if e.from in s.updateGamedir.entries && IsValid(s.updateGamedir.entries[e.from].time, e.Now(2), 5) {
      var entry := s.updateGamedir.entries[e.from];
      var k := StoredIsSaved(cfg, events, e.from);
      ValidIffWithinTimeout(entry.time, e.Now(2), 5);
      assert SavedRecently(cfg, events, k, e.from, entry.value, e.Now(2));
    }
    forall k: nat, g | SavedRecently(cfg, events, k, e.from, g, e.Now(2))
      ensures e.from in s.updateGamedir.entries && s.updateGamedir.entries[e.from] == Timed(events[k].Now(2), g)
      ensures IsValid(events[k].Now(2), e.Now(2), 5)
    {
      ValidIffWithinTimeout(events[k].Now(2), EndOf(events), 5);
      ValidIffWithinTimeout(events[k].Now(2), e.Now(2), 5);
      SavedIsKept(cfg, events, k, e.from, g);
    }
  }
}
