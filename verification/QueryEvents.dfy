/** What events make of the results of a query, one at a time and over whole runs. */
module QueryEvents {
  import opened Prelude
  import opened Types
  import opened Connections
  import opened Observers
  import opened ServerResults
  import opened QueryJoin

  // One event

  /** The new results all say timeout. */
  lemma {:induction false} ListGivesResults(q: QueryJoin.Query, list: seq<Addr>, now: nat, a: Addr)
    ensures var q' := InsertAll(q, list, now);
            && q' == q.(results := q'.results, observer := q'.observer)
            && (a in q'.results <==> a in q.results || a in list)
            && (a in q'.results ==> q'.results[a] == if a in q.results then q.results[a] else New(TimeoutKind))
  {
    if list != [] {
      ListGivesResults(q, Front(list), now, a);
      assert a in list <==> a in Front(list) || a == Last(list);
    }
  }

  /** The new connections are made with the user's wish for players. */
  lemma {:induction false} ListIsConnected(q: QueryJoin.Query, list: seq<Addr>, now: nat, a: Addr)
    ensures var conns := InsertAll(q, list, now).observer.connections;
            && InsertAll(q, list, now).players == q.players
            && (a in conns <==> a in q.observer.connections || a in list)
            && (a in conns ==>
                  conns[a] == if a in q.observer.connections then q.observer.connections[a] else NewConn(q.players, now))
  {
    if list != [] {
      ListIsConnected(q, Front(list), now, a);
      assert a in list <==> a in Front(list) || a == Last(list);
    }
  }

  /** They are asked next. */
  lemma {:induction false} ListIsPending(q: QueryJoin.Query, list: seq<Addr>, now: nat, a: Addr)
    ensures PendingServer(a) in InsertAll(q, list, now).observer.pending <==>
              PendingServer(a) in q.observer.pending || (a in list && a !in q.observer.connections)
  {
    if list != [] {
      ListIsPending(q, Front(list), now, a);
      ListIsConnected(q, Front(list), now, a);
      assert a in list <==> a in Front(list) || a == Last(list);
    }
  }

  /** A list from a master switches the time limit to that for servers, the first time only, and every server of it is
      asked for, with the user's wish for players, and shown as timed out until it answers. */
  lemma ListedServersAreAsked(q: QueryJoin.Query, event: Event, c: Content, now: nat, serverTimeout: nat, a: Addr)
    requires event.ServerList?
    ensures var q' := HandleEvent(q, event, c, now, serverTimeout);
            && q'.timeoutMaster == false && q'.timeout == (if q.timeoutMaster then serverTimeout else q.timeout)
            && q'.left == q.left && q'.custom == q.custom && q'.players == q.players
            && (a in q'.results <==> a in q.results || a in c.list)
            && (a in q'.results ==> q'.results[a] == if a in q.results then q.results[a] else New(TimeoutKind))
            && (a in c.list && a !in q.observer.connections ==>
                  && a in q'.observer.connections && q'.observer.connections[a] == NewConn(q.players, now)
                  && PendingServer(a) in q'.observer.pending)
  {
    var q1 := if q.timeoutMaster then q.(timeoutMaster := false, timeout := serverTimeout) else q;
    ListGivesResults(q1, c.list, now, a);
    ListIsConnected(q1, c.list, now, a);
    ListIsPending(q1, c.list, now, a);
  }

  // Whole runs

  /** What has happened to a server: the kind of result that it started over with, and its responses since. */
  datatype Story = Story(start: Kind, updates: seq<Update>)

  /** No info yet, and no error. */
  predicate NothingYet(story: Story) {
    story.start.TimeoutKind? && forall u | u in story.updates :: u.UpdatePlayers?
  }

  /** An info or players response adds to the story. An error starts it over: rejection always, a broken packet only when
      there is nothing to lose. */
  function Told(story: Story, event: Event, c: Content, a: Addr): Story {
    match event
    case ServerEvent(b, InfoNotice(ping, _)) =>
      if b == a then story.(updates := story.updates + [UpdateOk(ping, c.info)]) else story
    case MasterServerInfo(b) => if b == a then story.(updates := story.updates + [UpdateOk(0, c.info)]) else story
    case ServerEvent(b, PlayersNotice) =>
      if b == a then story.(updates := story.updates + [UpdatePlayers(c.players)]) else story
    case ServerEvent(b, InvalidProtocolNotice) => if b == a then Story(InvalidProtocolKind, []) else story
    case ServerEvent(b, InvalidPacketNotice) =>
      if b == a && NothingYet(story) then Story(InvalidPacketKind(c.raw), []) else story
    case _ => story
  }

  /** The result of a server is what its story comes to; a server without a result has no story. */
  predicate Tells(q: QueryJoin.Query, story: Story, a: Addr) {
    (if a in q.results then q.results[a] else New(TimeoutKind)) == ApplyAll(New(story.start), story.updates)
  }

  lemma {:induction false} NothingYetIff(story: Story)
    ensures NothingYet(story) <==> ApplyAll(New(story.start), story.updates).kind.TimeoutKind?
    decreases |story.updates|
  {
    var us := story.updates;
    if us != [] {
      NothingYetIff(story.(updates := Front(us)));
      assert forall u :: u in us <==> u in Front(us) || u == Last(us);
    }
  }

  lemma ApplySnoc(r: ServerResult, us: seq<Update>, u: Update)
    ensures ApplyAll(r, us + [u]) == Apply(ApplyAll(r, us), u)
  {
    assert Front(us + [u]) == us;
  }

  lemma ListTells(q: QueryJoin.Query, event: Event, c: Content, now: nat, serverTimeout: nat, story: Story, a: Addr)
    requires Tells(q, story, a) && event.ServerList?
    ensures Tells(HandleEvent(q, event, c, now, serverTimeout), story, a)
  {
    ListGivesResults(if q.timeoutMaster then q.(timeoutMaster := false, timeout := serverTimeout) else q, c.list, now, a);
  }

  /** A response changes the result as it changes the story. */
  lemma InfoTells(q: QueryJoin.Query, b: Addr, ping: nat, info: Info, story: Story, a: Addr)
    requires Tells(q, story, a)
    ensures Tells(ResultOk(q, b, ping, info),
                  if b == a then story.(updates := story.updates + [UpdateOk(ping, info)]) else story, a)
  {
    ApplySnoc(New(story.start), story.updates, UpdateOk(ping, info));
  }

  lemma PlayersTell(q: QueryJoin.Query, b: Addr, players: Players, story: Story, a: Addr)
    requires Tells(q, story, a) && b in q.results
    ensures Tells(ResultPlayers(q, b, players),
                  if b == a then story.(updates := story.updates + [UpdatePlayers(players)]) else story, a)
  {
    ApplySnoc(New(story.start), story.updates, UpdatePlayers(players));
  }

  lemma ErrorTells(q: QueryJoin.Query, b: Addr, kind: Kind, story: Story, a: Addr)
    requires Tells(q, story, a)
    ensures Tells(SetResult(q, b, kind), if b == a then Story(kind, []) else story, a)
  {
  }

  /** So does every event. */
  lemma EventTells(q: QueryJoin.Query, event: Event, c: Content, now: nat, serverTimeout: nat, story: Story, a: Addr)
    requires Tells(q, story, a) && Expected(q, event)
    ensures Tells(HandleEvent(q, event, c, now, serverTimeout), Told(story, event, c, a), a)
  {
    match event
    case ServerList(_, _) => ListTells(q, event, c, now, serverTimeout, story, a);
    case MasterServerInfo(b) => InfoTells(q, b, 0, c.info, story, a);
    case ServerEvent(b, InfoNotice(ping, _)) => InfoTells(q, b, ping, c.info, story, a);
    case ServerEvent(b, PlayersNotice) => PlayersTell(q, b, c.players, story, a);
    case ServerEvent(b, InvalidProtocolNotice) => ErrorTells(q, b, InvalidProtocolKind, story, a);
    case ServerEvent(b, InvalidPacketNotice) =>
      NothingYetIff(story);
      ErrorTells(q, b, InvalidPacketKind(c.raw), story, a);
    case _ =>
  }

  /** The event that a turn handles, if it gets that far. */
  function HandledIn(q: QueryJoin.Query, w: Wait, remaining: nat): Option<Event> {
    var t := WaitEvent(q.observer, Some(w.now + remaining), w.rounds, []);
    if t.event.None? || t.event.value.Timeout? || !Expected(q.(observer := t.state), t.event.value) then None else t.event
  }

  function ToldIn(q: QueryJoin.Query, w: Wait, remaining: nat, story: Story, a: Addr): Story {
    var event := HandledIn(q, w, remaining);
    if event.None? then story else Told(story, event.value, w.content, a)
  }

  /** The story of a server over the events that a run handles. */
  function StoryOf(
      q: QueryJoin.Query, waits: seq<Wait>, remaining: nat, serverTimeout: nat, story: Story, a: Addr): Story
    decreases |waits|
  {
    if (q.custom && q.left == {}) || waits == [] then story else
    var (q', stop) := Turn(q, waits[0], remaining, serverTimeout);
    var story' := ToldIn(q, waits[0], remaining, story, a);
    if stop.Some? then story' else StoryOf(q', waits[1..], q'.timeout - waits[0].elapsed, serverTimeout, story', a)
  }

  lemma TurnTells(q: QueryJoin.Query, w: Wait, remaining: nat, serverTimeout: nat, story: Story, a: Addr)
    requires Tells(q, story, a)
    ensures Tells(Turn(q, w, remaining, serverTimeout).0, ToldIn(q, w, remaining, story, a), a)
  {
    var t := WaitEvent(q.observer, Some(w.now + remaining), w.rounds, []);
    var q1 := q.(observer := t.state);
    if HandledIn(q, w, remaining).Some? {
      EventTells(q1, t.event.value, w.content, w.now, serverTimeout, story, a);
    }
  }

  lemma UnfoldStory(
      q: QueryJoin.Query, waits: seq<Wait>, remaining: nat, serverTimeout: nat, story: Story, a: Addr)
    requires waits != [] && !(q.custom && q.left == {})
    ensures var (q', stop) := Turn(q, waits[0], remaining, serverTimeout);
            var story' := ToldIn(q, waits[0], remaining, story, a);
            StoryOf(q, waits, remaining, serverTimeout, story, a) ==
            if stop.Some? then story'
            else StoryOf(q', waits[1..], q'.timeout - waits[0].elapsed, serverTimeout, story', a)
  {
  }

  lemma {:induction false} RunTells(
      q: QueryJoin.Query, waits: seq<Wait>, remaining: nat, serverTimeout: nat, answered: set<Addr>, story: Story, a: Addr)
    requires Tells(q, story, a)
    ensures Tells(RunQuery(q, waits, remaining, serverTimeout, answered).query,
                  StoryOf(q, waits, remaining, serverTimeout, story, a), a)
    decreases |waits|
  {
    if !(q.custom && q.left == {}) && waits != [] {
      var (q', stop) := Turn(q, waits[0], remaining, serverTimeout);
      TurnTells(q, waits[0], remaining, serverTimeout, story, a);
      UnfoldRun(q, waits, remaining, serverTimeout, answered);
      UnfoldStory(q, waits, remaining, serverTimeout, story, a);
      if stop.None? {
        RunTells(q', waits[1..], q'.timeout - waits[0].elapsed, serverTimeout, answered + CompleteNow(q'),
                 ToldIn(q, waits[0], remaining, story, a), a);
      }
    }
  }

  lemma {:induction false} NamedTimeOut(q: QueryJoin.Query, named: seq<Addr>, now: nat, a: Addr)
    requires q.results == map[]
    ensures var r := InsertNamed(q, named, now).results; (a in r <==> a in named) && (a in r ==> r[a] == New(TimeoutKind))
  {
    if named != [] {
      NamedTimeOut(q, Front(named), now, a);
      assert a in named <==> a in Front(named) || a == Last(named);
    }
  }

  /** Main result: the result that a query shows for a server, whatever the network does, is what the responses of that
      server come to, in the order of the events, since its last error if it had one; until the first it is a timeout.
      JoinedResult says what such a series comes to. */
  lemma ResultsFollowEvents(
      custom: bool, players: bool, start: Observers.State, masterTimeout: nat, serverTimeout: nat, named: seq<Addr>,
      now: nat, waits: seq<Wait>, a: Addr)
    ensures var q := InsertNamed(NewQuery(custom, players, start, masterTimeout, serverTimeout), named, now);
            var o := RunQuery(q, waits, q.timeout, serverTimeout, {});
            var story := StoryOf(q, waits, q.timeout, serverTimeout, Story(TimeoutKind, []), a);
            a in o.query.results ==> o.query.results[a] == ApplyAll(New(story.start), story.updates)
  {
    var q0 := NewQuery(custom, players, start, masterTimeout, serverTimeout);
    var q := InsertNamed(q0, named, now);
    NamedTimeOut(q0, named, now, a);
    assert Tells(q, Story(TimeoutKind, []), a);
    RunTells(q, waits, q.timeout, serverTimeout, {}, Story(TimeoutKind, []), a);
  }

  // The time limit

  /** The loop with one absolute deadline instead of what remains of the time limit. */
  function RunUntil(
      q: QueryJoin.Query, waits: seq<Wait>, start: nat, serverTimeout: nat, answered: set<Addr>): Outcome
    decreases |waits|
  {
    if q.custom && q.left == {} then Outcome(q, AllAnswered, answered) else
    if waits == [] then Outcome(q, Waiting, answered) else
    var w := waits[0];
    var (q', stop) := Turn(q, w, if w.now <= start + q.timeout then start + q.timeout - w.now else 0, serverTimeout);
    var answered := answered + CompleteNow(q');
    if stop.Some? then Outcome(q', stop.value, answered) else RunUntil(q', waits[1..], start, serverTimeout, answered)
  }

  /** Each wait begins when the event in front of it was handled, the first one `elapsed` after the start. */
  predicate InTime(waits: seq<Wait>, start: nat, elapsed: nat) {
    waits != [] ==> waits[0].now == start + elapsed && InTime(waits[1..], start, waits[0].elapsed)
  }

  lemma UnfoldUntil(q: QueryJoin.Query, waits: seq<Wait>, start: nat, serverTimeout: nat, answered: set<Addr>, remaining: nat)
    requires waits != [] && !(q.custom && q.left == {}) && waits[0].now + remaining == start + q.timeout
    ensures var (q', stop) := Turn(q, waits[0], remaining, serverTimeout);
            var seen := answered + CompleteNow(q');
            RunUntil(q, waits, start, serverTimeout, answered) ==
            if stop.Some? then Outcome(q', stop.value, seen) else RunUntil(q', waits[1..], start, serverTimeout, seen)
  {
  }

  predicate Agree(
      q: QueryJoin.Query, waits: seq<Wait>, start: nat, remaining: nat, serverTimeout: nat, answered: set<Addr>)
  {
    RunQuery(q, waits, remaining, serverTimeout, answered) == RunUntil(q, waits, start, serverTimeout, answered)
  }

  lemma EndsAgree(
      q: QueryJoin.Query, waits: seq<Wait>, start: nat, remaining: nat, serverTimeout: nat, answered: set<Addr>)
    requires waits == [] || (q.custom && q.left == {})
    ensures Agree(q, waits, start, remaining, serverTimeout, answered)
  {
  }

  lemma LastTurnAgrees(
      q: QueryJoin.Query, waits: seq<Wait>, start: nat, remaining: nat, serverTimeout: nat, answered: set<Addr>)
    requires waits != [] && !(q.custom && q.left == {}) && waits[0].now + remaining == start + q.timeout
    requires Turn(q, waits[0], remaining, serverTimeout).1.Some?
    ensures Agree(q, waits, start, remaining, serverTimeout, answered)
  {
    UnfoldRun(q, waits, remaining, serverTimeout, answered);
    UnfoldUntil(q, waits, start, serverTimeout, answered, remaining);
  }

  lemma RunGoesOn(
      q: QueryJoin.Query, waits: seq<Wait>, remaining: nat, serverTimeout: nat, answered: set<Addr>, q': QueryJoin.Query)
    requires waits != [] && !(q.custom && q.left == {})
    requires Turn(q, waits[0], remaining, serverTimeout) == (q', None)
    ensures RunQuery(q, waits, remaining, serverTimeout, answered)
         == RunQuery(q', waits[1..], q'.timeout - waits[0].elapsed, serverTimeout, answered + CompleteNow(q'))
  {
    UnfoldRun(q, waits, remaining, serverTimeout, answered);
  }

  lemma UntilGoesOn(
      q: QueryJoin.Query, waits: seq<Wait>, start: nat, remaining: nat, serverTimeout: nat, answered: set<Addr>,
      q': QueryJoin.Query)
    requires waits != [] && !(q.custom && q.left == {}) && waits[0].now + remaining == start + q.timeout
    requires Turn(q, waits[0], remaining, serverTimeout) == (q', None)
    ensures RunUntil(q, waits, start, serverTimeout, answered)
         == RunUntil(q', waits[1..], start, serverTimeout, answered + CompleteNow(q'))
  {
    UnfoldUntil(q, waits, start, serverTimeout, answered, remaining);
  }

  lemma NextTurnAgrees(
      q: QueryJoin.Query, waits: seq<Wait>, start: nat, remaining: nat, serverTimeout: nat, answered: set<Addr>,
      q': QueryJoin.Query)
    requires waits != [] && !(q.custom && q.left == {}) && waits[0].now + remaining == start + q.timeout
    requires Turn(q, waits[0], remaining, serverTimeout) == (q', None)
    requires Agree(q', waits[1..], start, q'.timeout - waits[0].elapsed, serverTimeout, answered + CompleteNow(q'))
    ensures Agree(q, waits, start, remaining, serverTimeout, answered)
  {
    RunGoesOn(q, waits, remaining, serverTimeout, answered, q');
    UntilGoesOn(q, waits, start, remaining, serverTimeout, answered, q');
  }

  /** Every wait lasts until the same point in time, the start plus the time limit that is in force. */
  lemma {:induction false} WaitsUntilTheLimit(
      q: QueryJoin.Query, waits: seq<Wait>, start: nat, elapsed: nat, serverTimeout: nat, answered: set<Addr>)
    requires InTime(waits, start, elapsed) && elapsed <= q.timeout
    ensures Agree(q, waits, start, q.timeout - elapsed, serverTimeout, answered)
    decreases |waits|
  {
    if waits == [] || (q.custom && q.left == {}) {
      EndsAgree(q, waits, start, q.timeout - elapsed, serverTimeout, answered);
    } else {
      var q' := Turn(q, waits[0], q.timeout - elapsed, serverTimeout).0;
      if Turn(q, waits[0], q.timeout - elapsed, serverTimeout).1.Some? {
        LastTurnAgrees(q, waits, start, q.timeout - elapsed, serverTimeout, answered);
      } else {
        WaitsUntilTheLimit(q', waits[1..], start, waits[0].elapsed, serverTimeout, answered + CompleteNow(q'));
        NextTurnAgrees(q, waits, start, q.timeout - elapsed, serverTimeout, answered, q');
      }
    }
  }
}
