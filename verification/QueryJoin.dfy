/** Joining info and players into one result per server (crates/xash3d-query/src/server_result.rs). */
module ServerResults {
  import opened Prelude

  datatype Info = Info(text: bytes, bots: byte)

  /** The players of a server; bots are only counted. */
  datatype Players = Players(names: seq<bytes>, bots: byte)

  datatype Kind =
    | TimeoutKind | OkKind(info: Info) | OkWithPlayers(info: Info, all: Players)
    | InvalidPacketKind(data: bytes) | InvalidProtocolKind

  datatype ServerResult = ServerResult(ping: Option<nat>, kind: Kind, players: Option<Players>)

  function New(kind: Kind): ServerResult {
    ServerResult(None, kind, None)
  }

  function Join(info: Info, players: Players): Kind {
    OkWithPlayers(info.(bots := players.bots), players)
  }

  function SetPlayers(r: ServerResult, players: Players): ServerResult {
    if r.kind.OkKind? then r.(kind := Join(r.kind.info, players)) else r.(players := Some(players))
  }

  function SetOk(r: ServerResult, ping: nat, info: Info): ServerResult {
    if r.kind.OkWithPlayers? then r.(ping := Some(ping), kind := Join(info, r.kind.all))
    else if r.players.Some? then ServerResult(Some(ping), Join(info, r.players.value), None)
    else r.(ping := Some(ping), kind := OkKind(info))
  }

  /** The object with these two methods. */
  class Cell {
    var ping: Option<nat>
    var kind: Kind
    var players: Option<Players>

    ghost function Abs(): ServerResult
      reads this
    {
      ServerResult(ping, kind, players)
    }

    constructor (kind: Kind)
      ensures Abs() == New(kind)
    {
      ping, this.kind, players := None, kind, None;
    }

    method PutPlayers(all: Players)
      modifies this
      ensures Abs() == SetPlayers(old(Abs()), all)
    {
      var taken := kind;
      kind := TimeoutKind;
      if taken.OkKind? {
        taken := Join(taken.info, all);
      } else {
        players := Some(all);
      }
      kind := taken;
    }

    method PutOk(time: nat, info: Info)
      modifies this
      ensures Abs() == SetOk(old(Abs()), time, info)
    {
      var taken := kind;
      kind := TimeoutKind;
      if taken.OkWithPlayers? {
        taken := Join(info, taken.all);
      } else if players.Some? {
        taken := Join(info, players.value);
        players := None;
      } else {
        taken := OkKind(info);
      }
      ping := Some(time);
      kind := taken;
    }
  }

  datatype Update = UpdatePlayers(players: Players) | UpdateOk(ping: nat, info: Info)

  function Apply(r: ServerResult, u: Update): ServerResult {
    match u
    case UpdatePlayers(players) => SetPlayers(r, players)
    case UpdateOk(ping, info) => SetOk(r, ping, info)
  }

  function ApplyAll(r: ServerResult, us: seq<Update>): ServerResult {
    if us == [] then r else Apply(ApplyAll(r, Front(us)), Last(us))
  }

  /** The first info among the updates, or their number if there is none. */
  function FirstInfo(us: seq<Update>): (f: nat)
    ensures f <= |us| && (f < |us| ==> us[f].UpdateOk?) && forall i | 0 <= i < f :: !us[i].UpdateOk?
  {
    if us == [] || us[0].UpdateOk? then 0 else 1 + FirstInfo(us[1..])
  }

  /** Update `k` is the last info. */
  predicate IsLastInfo(us: seq<Update>, k: nat) {
    k < |us| && us[k].UpdateOk? && forall i | k < i < |us| :: !us[i].UpdateOk?
  }

  /** Update `k` brings the players that are shown: the last ones in front of the first info or, if there are none
      in front of it, the first ones behind it. */
  predicate IsShown(us: seq<Update>, k: nat) {
    && k < |us| && us[k].UpdatePlayers?
    && if k < FirstInfo(us) then forall i | k < i < FirstInfo(us) :: !us[i].UpdatePlayers?
       else forall i | 0 <= i < k :: !us[i].UpdatePlayers?
  }

  lemma {:induction false} FirstInfoSnoc(us: seq<Update>, u: Update)
    ensures FirstInfo(us + [u]) == if FirstInfo(us) < |us| then FirstInfo(us) else if u.UpdateOk? then |us| else |us| + 1
  {
    if us != [] && !us[0].UpdateOk? {
      FirstInfoSnoc(us[1..], u);
      assert (us + [u])[1..] == us[1..] + [u];
    }
  }

  /** One more update is shown exactly when it brings the first players of all, or newer ones in front of any
      info; otherwise what was shown stays shown. */
  lemma ShownSnoc(us: seq<Update>, u: Update)
    ensures IsShown(us + [u], |us|) <==>
              u.UpdatePlayers? && (FirstInfo(us) == |us| || forall i | 0 <= i < |us| :: !us[i].UpdatePlayers?)
    ensures !IsShown(us + [u], |us|) ==> forall k: nat | k < |us| :: IsShown(us + [u], k) <==> IsShown(us, k)
  {
    FirstInfoSnoc(us, u);
    var vs := us + [u];
    assert vs[|us|] == u && forall i | 0 <= i < |us| :: vs[i] == us[i];
  }

  /** The result of any series of updates, by position: it has the ping and text of the last info, joined with the
      players that are shown, whose bots it counts; in front of the first info those players are kept aside. */
  predicate ResultAt(r: ServerResult, us: seq<Update>, info: Option<nat>, shown: Option<nat>)
    requires info.Some? ==> info.value < |us| && us[info.value].UpdateOk?
    requires shown.Some? ==> shown.value < |us| && us[shown.value].UpdatePlayers?
  {
    var players := if shown.Some? then Some(us[shown.value].players) else None;
    if info.None? then
      r == ServerResult(None, TimeoutKind, players)
    else
      var last := us[info.value];
      r == ServerResult(Some(last.ping), if players.None? then OkKind(last.info) else Join(last.info, players.value), r.players)
      && (players.None? ==> r.players == None)
  }

  /** No update is an info, or `info` is the last one; the same for the players that are shown. */
  predicate Names(us: seq<Update>, info: Option<nat>, shown: Option<nat>) {
    && (if info.Some? then IsLastInfo(us, info.value) else forall u | u in us :: !u.UpdateOk?)
    && (if shown.Some? then IsShown(us, shown.value) else forall u | u in us :: !u.UpdatePlayers?)
  }

  lemma NamesSnoc(us: seq<Update>, u: Update, info: Option<nat>, shown: Option<nat>)
    requires Names(us, info, shown)
    ensures Names(us + [u], if u.UpdateOk? then Some(|us|) else info, if IsShown(us + [u], |us|) then Some(|us|) else shown)
  {
    ShownSnoc(us, u);
    var vs := us + [u];
    assert vs[|us|] == u && forall i | 0 <= i < |us| :: vs[i] == us[i];
    if shown.None? && u.UpdatePlayers? {
      assert forall i | 0 <= i < |us| :: us[i] in us;
    }
  }

  /** One update changes the result as it changes the positions. */
  lemma ResultSnoc(r: ServerResult, us: seq<Update>, u: Update, info: Option<nat>, shown: Option<nat>)
    requires Names(us, info, shown) && ResultAt(r, us, info, shown)
    ensures ResultAt(Apply(r, u), us + [u],
                     if u.UpdateOk? then Some(|us|) else info, if IsShown(us + [u], |us|) then Some(|us|) else shown)
  {
    ShownSnoc(us, u);
    FirstInfoIffNone(us, info);
    if shown.None? {
      assert forall i | 0 <= i < |us| :: us[i] in us;
    }
  }

  lemma FirstInfoIffNone(us: seq<Update>, info: Option<nat>)
    requires if info.Some? then IsLastInfo(us, info.value) else forall u | u in us :: !u.UpdateOk?
    ensures info.None? <==> FirstInfo(us) == |us|
  {
    assert FirstInfo(us) < |us| ==> us[FirstInfo(us)] in us;
  }

  /** What any series of responses to one server comes to. */
  lemma {:induction false} JoinedResult(us: seq<Update>) returns (info: Option<nat>, shown: Option<nat>)
    ensures Names(us, info, shown) && ResultAt(ApplyAll(New(TimeoutKind), us), us, info, shown)
  {
    if us == [] {
      info, shown := None, None;
    } else {
      var front, u := Front(us), Last(us);
      info, shown := JoinedResult(front);
      assert front + [u] == us;
      NamesSnoc(front, u, info, shown);
      ResultSnoc(ApplyAll(New(TimeoutKind), front), front, u, info, shown);
      info, shown := if u.UpdateOk? then Some(|front|) else info, if IsShown(us, |front|) then Some(|front|) else shown;
    }
  }

  /** The newest players are the ones that are shown exactly when they came in front of any info, or are the only
      ones that ever came. */
  lemma NewestPlayersAreShownIff(us: seq<Update>, newest: nat)
    requires newest < |us| && us[newest].UpdatePlayers? && forall i | newest < i < |us| :: !us[i].UpdatePlayers?
    ensures IsShown(us, newest) <==>
              || (forall i | 0 <= i < newest :: !us[i].UpdateOk?)
              || (forall i | 0 <= i < newest :: !us[i].UpdatePlayers?)
  {
    if FirstInfo(us) <= newest {
      assert us[FirstInfo(us)].UpdateOk?;
    }
  }

  /** At most one update is shown. */
  lemma ShownOnce(us: seq<Update>, j: nat, k: nat)
    requires IsShown(us, j) && IsShown(us, k)
    ensures j == k
  {
  }

  predicate OrderMatters(r: ServerResult, ping: nat, info: Info, players: Players) {
    SetOk(SetPlayers(r, players), ping, info) != SetPlayers(SetOk(r, ping, info), players)
  }

  /** Exactly when one info and one players response may arrive in either order. */
  lemma OrderDoesNotMatterIff(r: ServerResult, ping: nat, info: Info, players: Players)
    ensures !OrderMatters(r, ping, info, players)
       <==> r.kind.OkWithPlayers? || r.players == None || (r.kind.OkKind? && r.players == Some(players))
  {
  }

  /** For the results that really occur: the order matters exactly when players but no info came before. */
  lemma OrderMattersIff(us: seq<Update>, ping: nat, info: Info, players: Players)
    ensures OrderMatters(ApplyAll(New(TimeoutKind), us), ping, info, players)
       <==> (forall u | u in us :: !u.UpdateOk?) && exists u | u in us :: u.UpdatePlayers?
  {
    var last, shown := JoinedResult(us);
    OrderDoesNotMatterIff(ApplyAll(New(TimeoutKind), us), ping, info, players);
    if last.Some? {
      assert us[last.value] in us;
    }
    if shown.Some? {
      assert us[shown.value] in us;
    }
  }

  /** Two lists of players in front of the info: the newer one is shown. With the info in between it is the older
      one. */
  lemma OrderExample(old_: Players, new_: Players, ping: nat, info: Info)
    requires old_ != new_
    ensures var r := ApplyAll(New(TimeoutKind), [UpdatePlayers(old_)]);
            && SetOk(SetPlayers(r, new_), ping, info).kind == Join(info, new_)
            && SetPlayers(SetOk(r, ping, info), new_).kind == Join(info, old_) != Join(info, new_)
  {
    assert ApplyAll(New(TimeoutKind), Front([UpdatePlayers(old_)])) == New(TimeoutKind);
  }

  /** A complete answer keeps its players. */
  lemma {:induction false} FirstPlayersStay(r: ServerResult, us: seq<Update>)
    requires r.kind.OkWithPlayers?
    ensures var r' := ApplyAll(r, us); r'.kind.OkWithPlayers? && r'.kind.all == r.kind.all
  {
    if us != [] {
      FirstPlayersStay(r, Front(us));
    }
  }
}

/** Collecting the results of a query and knowing when to stop
    (crates/xash3d-query/src/query_servers_info.rs). */
module QueryJoin {
  import opened Prelude
  import opened Types
  import opened Connections
  import opened Observers
  import opened ObserverSafety
  import opened ServerResults

  /** `custom` is set when the user named the servers, `left` holds those that have not answered yet. */
  datatype Query = Query(
    custom: bool, players: bool, results: map<Addr, ServerResult>, left: set<Addr>, observer: Observers.State,
    timeout: nat, timeoutMaster: bool)

  /** What arrives with an event. */
  datatype Content = Content(list: seq<Addr>, info: Info, players: Players, raw: bytes)

  /** The inputs of one wait: the clock, the observer's inputs, the content of its event, and the time that has
      passed since the start when it is handled. */
  datatype Wait = Wait(now: nat, rounds: seq<Round>, content: Content, elapsed: nat)

  function InsertServer(q: Query, addr: Addr, now: nat): Query {
    q.(observer := Observers.InsertServer(q.observer, addr, q.players, now),
       results := if addr in q.results then q.results else q.results[addr := New(TimeoutKind)])
  }

  function InsertCustom(q: Query, addr: Addr, now: nat): Query {
    InsertServer(q.(left := q.left + {addr}), addr, now)
  }

  function InsertAll(q: Query, list: seq<Addr>, now: nat): Query {
    if list == [] then q else InsertServer(InsertAll(q, Front(list), now), Last(list), now)
  }

  function SetResult(q: Query, addr: Addr, kind: Kind): Query {
    q.(left := if q.custom then q.left - {addr} else q.left, results := q.results[addr := New(kind)])
  }

  function ResultOk(q: Query, addr: Addr, ping: nat, info: Info): Query {
    var r := if addr in q.results then q.results[addr] else New(TimeoutKind);
    q.(left := if q.custom && (!q.players || r.players.Some?) then q.left - {addr} else q.left,
       results := q.results[addr := SetOk(r, ping, info)])
  }

  /** The source expects the address to have a result. */
  function ResultPlayers(q: Query, addr: Addr, players: Players): Query
    requires addr in q.results
  {
    var r := q.results[addr];
    q.(left := if q.custom && (!q.players || r.kind.OkKind?) then q.left - {addr} else q.left,
       results := q.results[addr := SetPlayers(r, players)])
  }

  predicate Expected(q: Query, event: Event) {
    event.ServerEvent? && event.notice == PlayersNotice ==> event.server in q.results
  }

  function HandleEvent(q: Query, event: Event, c: Content, now: nat, serverTimeout: nat): Query
    requires Expected(q, event)
  {
    match event
    case ServerList(_, _) =>
      InsertAll(if q.timeoutMaster then q.(timeoutMaster := false, timeout := serverTimeout) else q, c.list, now)
    case MasterServerInfo(addr) => ResultOk(q, addr, 0, c.info)
    case ServerEvent(addr, InfoNotice(ping, _)) => ResultOk(q, addr, ping, c.info)
    case ServerEvent(addr, PlayersNotice) => ResultPlayers(q, addr, c.players)
    case ServerEvent(addr, InvalidProtocolNotice) => SetResult(q, addr, InvalidProtocolKind)
    case ServerEvent(addr, InvalidPacketNotice) =>
      if addr !in q.results || q.results[addr].kind.TimeoutKind? then SetResult(q, addr, InvalidPacketKind(c.raw)) else q
    case _ => q
  }

  /** Neither an error nor everything that was asked for. */
  predicate Incomplete(q: Query, addr: Addr) {
    addr in q.results ==>
      var r := q.results[addr];
      r.kind.TimeoutKind? || (q.players && r.kind.OkKind? && r.players.None?)
  }

  predicate BotsCounted(r: ServerResult) {
    r.kind.OkWithPlayers? ==> r.kind.info.bots == r.kind.all.bots
  }

  /** The observer only knows servers that have a result, asks for players only if the user did, and a server
      that is waited for is still incomplete. */
  predicate Inv(q: Query) {
    && q.observer.connections.Keys <= q.results.Keys && Wishes(q.observer, q.players)
    && (q.custom ==> forall a | a in q.left :: a in q.results && Incomplete(q, a))
    && forall a | a in q.results :: BotsCounted(q.results[a])
  }

  /** How an event changes what is waited for: it goes down to the servers that are still incomplete. */
  predicate OnlyAnsweredLeave(q: Query, q': Query) {
    && q'.custom == q.custom && q'.players == q.players && q'.left <= q.left
    && forall a | a in q.left && a !in q'.left :: !Incomplete(q', a)
  }

  lemma InsertServerKeepsInv(q: Query, addr: Addr, now: nat)
    requires Inv(q)
    ensures Inv(InsertServer(q, addr, now))
  {
  }

  lemma InsertCustomKeepsInv(q: Query, addr: Addr, now: nat)
    requires Inv(q) && Incomplete(q, addr)
    ensures Inv(InsertCustom(q, addr, now))
  {
  }

  lemma {:induction false} InsertAllKeepsInv(q: Query, list: seq<Addr>, now: nat)
    requires Inv(q)
    ensures Inv(InsertAll(q, list, now)) && OnlyAnsweredLeave(q, InsertAll(q, list, now))
  {
    if list != [] {
      InsertAllKeepsInv(q, Front(list), now);
      InsertServerKeepsInv(InsertAll(q, Front(list), now), Last(list), now);
    }
  }

  lemma ResultOkKeepsInv(q: Query, addr: Addr, ping: nat, info: Info)
    requires Inv(q)
    ensures Inv(ResultOk(q, addr, ping, info)) && OnlyAnsweredLeave(q, ResultOk(q, addr, ping, info))
  {
  }

  lemma ResultPlayersKeepsInv(q: Query, addr: Addr, players: Players)
    requires Inv(q) && addr in q.results && q.players
    ensures Inv(ResultPlayers(q, addr, players)) && OnlyAnsweredLeave(q, ResultPlayers(q, addr, players))
  {
  }

  lemma SetResultKeepsInv(q: Query, addr: Addr, kind: Kind)
    requires Inv(q) && (kind.InvalidProtocolKind? || kind.InvalidPacketKind?)
    ensures Inv(SetResult(q, addr, kind)) && OnlyAnsweredLeave(q, SetResult(q, addr, kind))
  {
  }

  lemma HandleEventKeepsInv(q: Query, event: Event, c: Content, now: nat, serverTimeout: nat)
    requires Inv(q) && Expected(q, event)
    requires event.ServerEvent? && event.notice == PlayersNotice ==> q.players
    ensures var q' := HandleEvent(q, event, c, now, serverTimeout); Inv(q') && OnlyAnsweredLeave(q, q')
  {
    match event
    case ServerList(_, _) =>
      var q' := if q.timeoutMaster then q.(timeoutMaster := false, timeout := serverTimeout) else q;
      assert forall a :: Incomplete(q', a) <==> Incomplete(q, a);
      InsertAllKeepsInv(q', c.list, now);
    case MasterServerInfo(addr) => ResultOkKeepsInv(q, addr, 0, c.info);
    case ServerEvent(addr, InfoNotice(ping, _)) => ResultOkKeepsInv(q, addr, ping, c.info);
    case ServerEvent(addr, PlayersNotice) => ResultPlayersKeepsInv(q, addr, c.players);
    case ServerEvent(addr, InvalidProtocolNotice) => SetResultKeepsInv(q, addr, InvalidProtocolKind);
    case ServerEvent(addr, InvalidPacketNotice) => SetResultKeepsInv(q, addr, InvalidPacketKind(c.raw));
    case _ =>
  }

  // Whole runs

  datatype Stop = AllAnswered | TimedOut | Waiting | Panicked

  /** A query that stopped, and the servers that ever had a complete answer or an error. */
  datatype Outcome = Outcome(query: Query, stop: Stop, answered: set<Addr>)

  function CompleteNow(q: Query): set<Addr> {
    set a | a in q.results && !Incomplete(q, a)
  }

  /** One turn of the event loop: it waits for as long as the time limit allows, then handles the event. It
      would panic on players from a server without a result. */
  function Turn(q: Query, w: Wait, remaining: nat, serverTimeout: nat): (r: (Query, Option<Stop>))
    ensures r.1.None? ==> w.elapsed <= r.0.timeout
  {
    var t := WaitEvent(q.observer, Some(w.now + remaining), w.rounds, []);
    var q := q.(observer := t.state);
    if t.event.None? then (q, Some(Waiting))
    else if t.event.value.Timeout? then (q, Some(TimedOut))
    else if !Expected(q, t.event.value) then (q, Some(Panicked))
    else
      var q := HandleEvent(q, t.event.value, w.content, w.now, serverTimeout);
      (q, if q.timeout < w.elapsed then Some(TimedOut) else None)
  }

  /** The event loop. It stops early when the user named the servers and none is left. */
  function RunQuery(q: Query, waits: seq<Wait>, remaining: nat, serverTimeout: nat, answered: set<Addr>): Outcome
    decreases |waits|
  {
    if q.custom && q.left == {} then Outcome(q, AllAnswered, answered) else
    if waits == [] then Outcome(q, Waiting, answered) else
    var (q, stop) := Turn(q, waits[0], remaining, serverTimeout);
    var answered := answered + CompleteNow(q);
    if stop.Some? then Outcome(q, stop.value, answered)
    else RunQuery(q, waits[1..], q.timeout - waits[0].elapsed, serverTimeout, answered)
  }

  /** Servers named by the user are inserted before the loop starts. */
  function InsertNamed(q: Query, named: seq<Addr>, now: nat): Query {
    if named == [] then q else InsertCustom(InsertNamed(q, Front(named), now), Last(named), now)
  }

  /** Without named servers the time limit is that for an answer of a master at first. */
  function NewQuery(custom: bool, players: bool, observer: Observers.State, masterTimeout: nat, serverTimeout: nat): Query {
    Query(custom, players, map[], {}, observer, if custom then serverTimeout else masterTimeout, !custom)
  }

  lemma {:induction false} NamedAreLeft(q: Query, named: seq<Addr>, now: nat)
    requires Inv(q) && q.results == map[] && q.left == {}
    ensures var q' := InsertNamed(q, named, now);
            && Inv(q') && q'.custom == q.custom && q'.players == q.players && q'.left == (set a | a in named)
            && CompleteNow(q') == {}
  {
    if named != [] {
      NamedAreLeft(q, Front(named), now);
      var q1, addr := InsertNamed(q, Front(named), now), Last(named);
      assert forall a | a in q1.results && !Incomplete(q1, a) :: a in CompleteNow(q1);
      InsertCustomKeepsInv(q1, addr, now);
      forall a
        ensures Incomplete(InsertNamed(q, named, now), a)
      {
        assert a in q1.results && !Incomplete(q1, a) ==> a in CompleteNow(q1);
      }
    }
  }

  /** The result that a turn expects is there, and only answered servers stop being waited for. */
  lemma TurnKeepsInv(q: Query, w: Wait, remaining: nat, serverTimeout: nat)
    requires Inv(q)
    ensures var (q', stop) := Turn(q, w, remaining, serverTimeout);
            Inv(q') && OnlyAnsweredLeave(q, q') && stop !in {Some(Panicked), Some(AllAnswered)}
  {
    var t := WaitEvent(q.observer, Some(w.now + remaining), w.rounds, []);
    var q1 := q.(observer := t.state);
    WaitShrinks(q.observer, Some(w.now + remaining), w.rounds, [], q.players);
    assert forall a :: Incomplete(q1, a) <==> Incomplete(q, a);
    if t.event.Some? {
      HandleEventKeepsInv(q1, t.event.value, w.content, w.now, serverTimeout);
    }
  }

  lemma UnfoldRun(q: Query, waits: seq<Wait>, remaining: nat, serverTimeout: nat, answered: set<Addr>)
    requires waits != [] && !(q.custom && q.left == {})
    ensures var (q', stop) := Turn(q, waits[0], remaining, serverTimeout);
            var seen := answered + CompleteNow(q');
            RunQuery(q, waits, remaining, serverTimeout, answered) ==
            if stop.Some? then Outcome(q', stop.value, seen)
            else RunQuery(q', waits[1..], q'.timeout - waits[0].elapsed, serverTimeout, seen)
  {
  }

  lemma LeftAfterTurn(q1: Query, q2: Query, named: set<Addr>, answered: set<Addr>)
    requires Inv(q2) && OnlyAnsweredLeave(q1, q2) && (q1.custom ==> q1.left == named - answered)
    ensures q1.custom ==> q2.left == named - (answered + CompleteNow(q2))
  {
    forall a | q1.custom && a in q1.left && a !in q2.left
      ensures a in CompleteNow(q2)
    {
      assert !Incomplete(q2, a);
    }
  }

  lemma TurnIsSound(q: Query, w: Wait, remaining: nat, serverTimeout: nat, answered: set<Addr>, named: set<Addr>)
    requires Inv(q) && (q.custom ==> q.left == named - answered)
    ensures var (q', stop) := Turn(q, w, remaining, serverTimeout);
            && Inv(q') && q'.custom == q.custom && stop !in {Some(Panicked), Some(AllAnswered)}
            && (q'.custom ==> q'.left == named - (answered + CompleteNow(q')))
  {
    TurnKeepsInv(q, w, remaining, serverTimeout);
    LeftAfterTurn(q, Turn(q, w, remaining, serverTimeout).0, named, answered);
  }

  /** What is promised of a query, however it stops. */
  predicate Sound(o: Outcome, custom: bool, named: set<Addr>) {
    && o.stop != Panicked && Inv(o.query) && o.query.custom == custom
    && (custom ==> o.query.left == named - o.answered)
    && (o.stop == AllAnswered ==> custom && named <= o.answered)
  }

  lemma EndIsSound(q: Query, stop: Stop, answered: set<Addr>, named: set<Addr>)
    requires Inv(q) && (q.custom ==> q.left == named - answered)
    requires stop != Panicked && (stop == AllAnswered ==> q.custom && q.left == {})
    ensures Sound(Outcome(q, stop, answered), q.custom, named)
  {
    assert forall a | a in named :: a in answered || a in named - answered;
  }

  lemma {:induction false} RunQueryIsSound(
      q: Query, waits: seq<Wait>, remaining: nat, serverTimeout: nat, answered: set<Addr>, named: set<Addr>)
    requires Inv(q) && (q.custom ==> q.left == named - answered)
    ensures Sound(RunQuery(q, waits, remaining, serverTimeout, answered), q.custom, named)
    decreases |waits|
  {
    if q.custom && q.left == {} {
      EndIsSound(q, AllAnswered, answered, named);
    } else if waits == [] {
      EndIsSound(q, Waiting, answered, named);
    } else {
      UnfoldRun(q, waits, remaining, serverTimeout, answered);
      TurnIsSound(q, waits[0], remaining, serverTimeout, answered, named);
      var (q', stop) := Turn(q, waits[0], remaining, serverTimeout);
      var seen := answered + CompleteNow(q');
      match stop
      case Some(end) => EndIsSound(q', end, seen, named);
      case None => RunQueryIsSound(q', waits[1..], q'.timeout - waits[0].elapsed, serverTimeout, seen, named);
    }
  }

  /** Main result, for any query over any network behaviour: the result that the source expects is always
      there; the servers still waited for are exactly the named ones that never had a complete answer or an
      error, so an early end means that every named server had one; every shown player list comes with its own
      count of bots. */
  lemma QueryIsSound(
      custom: bool, players: bool, start: Observers.State, masterTimeout: nat, serverTimeout: nat, named: seq<Addr>,
      now: nat, waits: seq<Wait>)
    requires start.connections == map[]
    ensures var q := InsertNamed(NewQuery(custom, players, start, masterTimeout, serverTimeout), named, now);
            var o := RunQuery(q, waits, q.timeout, serverTimeout, {});
            && o.stop != Panicked
            && (custom ==> o.query.left == (set a | a in named) - o.answered)
            && (o.stop == AllAnswered ==> forall a | a in named :: a in o.answered)
            && (forall a | a in o.query.results :: BotsCounted(o.query.results[a]))
  {
    var q0 := NewQuery(custom, players, start, masterTimeout, serverTimeout);
    NamedAreLeft(q0, named, now);
    var q := InsertNamed(q0, named, now);
    var all := set a | a in named;
    RunQueryIsSound(q, waits, q.timeout, serverTimeout, {}, all);
  }
}
