/** One game server as an observer sees it (crates/xash3d-observer/src/connection.rs). Times are readings of a
    monotonic clock in milliseconds. */
module Connections {
  import opened Prelude

  const PROTOCOL_VERSION: byte := 49
  const LEGACY_VERSION: byte := 48
  const SERVER_TIMEOUT := 16_000

  datatype Phase = ProtocolDetection | Idle | WaitingInfo

  datatype Conn = Conn(
    protocol: byte, players: bool, phase: Phase, requestTime: nat, responseTime: nat,
    challenge: Option<u32>, waitPlayers: bool, data: bytes)

  datatype Request = InfoRequest(protocol: byte) | PlayersRequest(challenge: u32) | ChallengeRequest

  /** What a server's packet decodes to. */
  datatype Reply =
    | ChallengeReply(number: u32) | OtherInfoReply | PlayersReply | InfoReply(raw: bytes)
    | WrongVersionReply | UnknownReply

  /** What the user is told about it. */
  datatype Notice = InfoNotice(ping: nat, changed: bool) | PlayersNotice | InvalidProtocolNotice | InvalidPacketNotice

  function NewConn(players: bool, now: nat): Conn {
    Conn(PROTOCOL_VERSION, players, ProtocolDetection, now, now, None, false, [])
  }

  function Since(now: nat, time: nat): nat {
    if now >= time then now - time else 0
  }

  predicate IsValid(c: Conn, now: nat) {
    Since(now, c.responseTime) < SERVER_TIMEOUT
  }

  /** A players request needs a challenge, and u32::MAX is not one. */
  function PlayersPacket(challenge: Option<u32>): Request {
    if challenge.Some? && challenge.value != 0xffff_ffff then PlayersRequest(challenge.value) else ChallengeRequest
  }

  function QueryInfo(c: Conn, now: nat): Conn {
    c.(requestTime := now, phase := if c.phase == Idle then WaitingInfo else c.phase)
  }

  function Query(c: Conn, now: nat): (Conn, seq<Request>) {
    var c := QueryInfo(c, now);
    if c.players then (c.(waitPlayers := true), [InfoRequest(c.protocol), PlayersPacket(c.challenge)])
    else (c, [InfoRequest(c.protocol)])
  }

  function Handle(c: Conn, reply: Reply, now: nat): (Conn, Option<Notice>, seq<Request>) {
    match reply
    case ChallengeReply(n) =>
      var c := c.(challenge := Some(n));
      (c, None, if c.waitPlayers then [PlayersPacket(c.challenge)] else [])
    case OtherInfoReply => (c, None, [])
    case PlayersReply =>
      if c.waitPlayers then (c.(waitPlayers := false), Some(PlayersNotice), []) else (c, None, [])
    case InfoReply(raw) =>
      var c' := c.(responseTime := now, phase := Idle, data := raw);
      (c', Some(InfoNotice(Since(now, c.requestTime), c.data != raw)), [])
    case WrongVersionReply =>
      if c.phase == ProtocolDetection && c.protocol == PROTOCOL_VERSION then
        var (c', sent) := Query(c.(protocol := LEGACY_VERSION), now);
        (c', None, sent)
      else (c, Some(InvalidProtocolNotice), [])
    case UnknownReply => (c, Some(InvalidPacketNotice), [])
  }

  class Connection {
    var protocol: byte
    const players: bool
    var phase: Phase
    var requestTime: nat
    var responseTime: nat
    var challenge: Option<u32>
    var waitPlayers: bool
    var data: bytes

    ghost function State(): Conn
      reads this
    {
      Conn(protocol, players, phase, requestTime, responseTime, challenge, waitPlayers, data)
    }

    constructor (players: bool, now: nat)
      ensures State() == NewConn(players, now)
    {
      protocol, this.players, phase := PROTOCOL_VERSION, players, ProtocolDetection;
      requestTime, responseTime, challenge, waitPlayers, data := now, now, None, false, [];
    }

    method QueryPlayers() returns (sent: seq<Request>)
      modifies this
      ensures State() == old(State()).(waitPlayers := true) && sent == [PlayersPacket(challenge)]
    {
      waitPlayers := true;
      sent := [PlayersPacket(challenge)];
    }

    method AskServer(now: nat) returns (sent: seq<Request>)
      modifies this
      ensures (State(), sent) == Query(old(State()), now)
    {
      requestTime := now;
      if phase == Idle {
        phase := WaitingInfo;
      }
      sent := [InfoRequest(protocol)];
      if players {
        var more := QueryPlayers();
        sent := sent + more;
        assert sent == [InfoRequest(protocol), PlayersPacket(challenge)];
      }
    }

    /** Whether the raw info is new. */
    method UpdateRawInfo(raw: bytes) returns (changed: bool)
      modifies this
      ensures State() == old(State()).(phase := Idle, data := raw) && changed == (raw != old(data))
    {
      phase := Idle;
      if data == raw {
        return false;
      }
      data := raw;
      changed := true;
    }

    method HandlePacket(reply: Reply, now: nat) returns (notice: Option<Notice>, sent: seq<Request>)
      modifies this
      ensures (State(), notice, sent) == Handle(old(State()), reply, now)
    {
      notice, sent := None, [];
      match reply
      case ChallengeReply(n) =>
        challenge := Some(n);
        if waitPlayers {
          sent := QueryPlayers();
        }
      case OtherInfoReply =>
      case PlayersReply =>
        if waitPlayers {
          waitPlayers := false;
          notice := Some(PlayersNotice);
        }
      case InfoReply(raw) =>
        responseTime := now;
        var ping := Since(responseTime, requestTime);
        var changed := UpdateRawInfo(raw);
        notice := Some(InfoNotice(ping, changed));
      case WrongVersionReply =>
        if phase == ProtocolDetection && protocol == PROTOCOL_VERSION {
          protocol := LEGACY_VERSION;
          sent := AskServer(now);
        } else {
          notice := Some(InvalidProtocolNotice);
        }
      case UnknownReply => notice := Some(InvalidPacketNotice);
    }
  }

  // Histories

  datatype Op = Ask(now: nat) | Receive(reply: Reply, now: nat)

  function Step(c: Conn, op: Op): (Conn, Option<Notice>, seq<Request>) {
    match op
    case Ask(now) => var (c', sent) := Query(c, now); (c', None, sent)
    case Receive(reply, now) => Handle(c, reply, now)
  }

  function Run(c: Conn, ops: seq<Op>): Conn {
    if ops == [] then c else Step(Run(c, Front(ops)), Last(ops)).0
  }

  predicate IsInfo(op: Op) {
    op.Receive? && op.reply.InfoReply?
  }

  predicate IsWrongVersion(op: Op) {
    op.Receive? && op.reply.WrongVersionReply?
  }

  /** The server ever sent its info. */
  predicate Detected(h: seq<Op>) {
    exists op | op in h :: IsInfo(op)
  }

  /** The server rejected the protocol version before it ever sent its info. */
  predicate Rejected(h: seq<Op>) {
    exists i | 0 <= i < |h| :: IsWrongVersion(h[i]) && !Detected(h[..i])
  }

  /** The server sent its info since it was last asked. */
  predicate Answered(h: seq<Op>) {
    exists i | 0 <= i < |h| :: IsInfo(h[i]) && forall j | i < j < |h| :: !h[j].Ask?
  }

  /** The last info it sent; nothing at first. */
  function LastInfo(h: seq<Op>): bytes {
    if h == [] then [] else if IsInfo(Last(h)) then Last(h).reply.raw else LastInfo(Front(h))
  }

  /** The step asks the server, either on demand or because of the fallback to the legacy protocol. */
  predicate Asks(h: seq<Op>, op: Op) {
    op.Ask? || (IsWrongVersion(op) && !Detected(h) && !Rejected(h))
  }

  predicate IsPlayers(op: Op) {
    op.Receive? && op.reply == PlayersReply
  }

  /** The server was asked for its players at step `i` and has not sent them since. */
  predicate OwingFrom(h: seq<Op>, i: nat)
    requires i < |h|
  {
    Asks(h[..i], h[i]) && forall j | i < j < |h| :: !IsPlayers(h[j])
  }

  /** The server was asked for its players since it last sent them. */
  predicate Owing(h: seq<Op>) {
    exists i | 0 <= i < |h| :: OwingFrom(h, i)
  }

  function LastAsked(h: seq<Op>, start: nat): nat {
    if h == [] then start else if Asks(Front(h), Last(h)) then Last(h).now else LastAsked(Front(h), start)
  }

  function LastHeard(h: seq<Op>, start: nat): nat {
    if h == [] then start else if IsInfo(Last(h)) then Last(h).now else LastHeard(Front(h), start)
  }

  function LastChallenge(h: seq<Op>): Option<u32> {
    if h == [] then None
    else if Last(h).Receive? && Last(h).reply.ChallengeReply? then Some(Last(h).reply.number)
    else LastChallenge(Front(h))
  }

  /** The whole state, read off the history. */
  function FromHistory(players: bool, start: nat, h: seq<Op>): Conn {
    Conn(if Rejected(h) then LEGACY_VERSION else PROTOCOL_VERSION, players,
         if !Detected(h) then ProtocolDetection else if Answered(h) then Idle else WaitingInfo,
         LastAsked(h, start), LastHeard(h, start), LastChallenge(h), players && Owing(h), LastInfo(h))
  }

  /** What the user should be told, read off the history: the ping since the last request and whether the
      info is news; players only when they are owed; a protocol error unless falling back is still possible. */
  function ExpectedNotice(players: bool, start: nat, h: seq<Op>, op: Op): Option<Notice> {
    match op
    case Ask(_) => None
    case Receive(InfoReply(raw), now) => Some(InfoNotice(Since(now, LastAsked(h, start)), raw != LastInfo(h)))
    case Receive(PlayersReply, _) => if players && Owing(h) then Some(PlayersNotice) else None
    case Receive(WrongVersionReply, _) => if Detected(h) || Rejected(h) then Some(InvalidProtocolNotice) else None
    case Receive(UnknownReply, _) => Some(InvalidPacketNotice)
    case Receive(_, _) => None
  }

  /** What goes to the server, read off the history: an info request with version 48 once it rejected 49, and with it,
      if players are wanted, a request for them that carries the last challenge; without a challenge, and u32::MAX
      is not one, a request for a challenge instead. The request for players is repeated with each new challenge while
      they are owed. */
  function ExpectedRequests(players: bool, h: seq<Op>, op: Op): seq<Request> {
    if Asks(h, op) then
      var info := InfoRequest(if Rejected(h + [op]) then 48 else 49);
      if !players then [info]
      else if LastChallenge(h) == None || LastChallenge(h) == Some(0xffff_ffff) then [info, ChallengeRequest]
      else [info, PlayersRequest(LastChallenge(h).value)]
    else if op.Receive? && op.reply.ChallengeReply? && players && Owing(h) then
      [if op.reply.number == 0xffff_ffff then ChallengeRequest else PlayersRequest(op.reply.number)]
    else []
  }

  lemma DetectedSnoc(h: seq<Op>, op: Op)
    ensures Detected(h + [op]) <==> Detected(h) || IsInfo(op)
  {
    assert (h + [op])[|h|] == op;
    assert forall o | o in h :: o in h + [op];
  }

  lemma RejectedSnoc(h: seq<Op>, op: Op)
    ensures Rejected(h + [op]) <==> Rejected(h) || (IsWrongVersion(op) && !Detected(h))
  {
    var g := h + [op];
    assert forall i | 0 <= i <= |h| :: g[..i] == h[..i];
    assert h[..|h|] == h && g[|h|] == op;
    if Rejected(h) {
      var i :| 0 <= i < |h| && IsWrongVersion(h[i]) && !Detected(h[..i]);
      assert IsWrongVersion(g[i]) && !Detected(g[..i]);
    }
  }

  lemma AnsweredSnoc(h: seq<Op>, op: Op)
    ensures Answered(h + [op]) <==> IsInfo(op) || (Answered(h) && !op.Ask?)
  {
    var g := h + [op];
    assert g[|h|] == op;
    if Answered(h) && !op.Ask? {
      var i :| 0 <= i < |h| && IsInfo(h[i]) && forall j | i < j < |h| :: !h[j].Ask?;
      assert IsInfo(g[i]);
    }
    if Answered(g) && !IsInfo(op) {
      var i :| 0 <= i < |g| && IsInfo(g[i]) && forall j | i < j < |g| :: !g[j].Ask?;
      assert IsInfo(h[i]) && forall j | i < j < |h| :: h[j] == g[j];
    }
  }

  lemma OwingFromSnoc(h: seq<Op>, op: Op, i: nat)
    requires i < |h|
    ensures OwingFrom(h + [op], i) <==> OwingFrom(h, i) && !IsPlayers(op)
  {
    var g := h + [op];
    assert g[..i] == h[..i] && g[i] == h[i] && g[|h|] == op;
    assert forall j | i < j < |h| :: g[j] == h[j];
  }

  lemma OwingSnoc(h: seq<Op>, op: Op)
    ensures Owing(h + [op]) <==> Asks(h, op) || (Owing(h) && !IsPlayers(op))
  {
    var g := h + [op];
    forall i | 0 <= i < |h|
      ensures OwingFrom(g, i) <==> OwingFrom(h, i) && !IsPlayers(op)
    {
      OwingFromSnoc(h, op, i);
    }
    assert OwingFrom(g, |h|) <==> Asks(h, op) by {
      assert g[..|h|] == h && g[|h|] == op;
    }
  }

  /** How one more step changes what the history says. */
  lemma HistoryAfter(players: bool, start: nat, h: seq<Op>, op: Op)
    ensures var c, c' := FromHistory(players, start, h), FromHistory(players, start, h + [op]);
            && c'.protocol == (if IsWrongVersion(op) && !Detected(h) then LEGACY_VERSION else c.protocol)
            && c'.phase == (if IsInfo(op) then Idle else if c.phase == Idle && op.Ask? then WaitingInfo else c.phase)
            && c'.requestTime == (if Asks(h, op) then op.now else c.requestTime)
            && c'.responseTime == (if IsInfo(op) then op.now else c.responseTime)
            && c'.waitPlayers == (players && (Asks(h, op) || (c.waitPlayers && !IsPlayers(op))))
            && c'.data == (if IsInfo(op) then op.reply.raw else c.data)
            && c'.challenge == (if op.Receive? && op.reply.ChallengeReply? then Some(op.reply.number) else c.challenge)
  {
    DetectedSnoc(h, op);
    RejectedSnoc(h, op);
    AnsweredSnoc(h, op);
    OwingSnoc(h, op);
    assert Front(h + [op]) == h && Last(h + [op]) == op;
    if Answered(h) {
      assert Detected(h);
    }
  }

  lemma AskMatchesHistory(players: bool, start: nat, h: seq<Op>, op: Op)
    requires op.Ask?
    ensures Step(FromHistory(players, start, h), op).0 == FromHistory(players, start, h + [op])
    ensures Step(FromHistory(players, start, h), op).1 == ExpectedNotice(players, start, h, op)
  {
    HistoryAfter(players, start, h, op);
  }

  lemma ReplyMatchesHistory(players: bool, start: nat, h: seq<Op>, op: Op)
    requires op.Receive? && !op.reply.WrongVersionReply?
    ensures Step(FromHistory(players, start, h), op).0 == FromHistory(players, start, h + [op])
    ensures Step(FromHistory(players, start, h), op).1 == ExpectedNotice(players, start, h, op)
  {
    HistoryAfter(players, start, h, op);
  }

  lemma RejectionMatchesHistory(players: bool, start: nat, h: seq<Op>, op: Op)
    requires IsWrongVersion(op)
    ensures Step(FromHistory(players, start, h), op).0 == FromHistory(players, start, h + [op])
    ensures Step(FromHistory(players, start, h), op).1 == ExpectedNotice(players, start, h, op)
  {
    HistoryAfter(players, start, h, op);
  }

  lemma StepMatchesHistory(players: bool, start: nat, h: seq<Op>, op: Op)
    ensures Step(FromHistory(players, start, h), op).0 == FromHistory(players, start, h + [op])
    ensures Step(FromHistory(players, start, h), op).1 == ExpectedNotice(players, start, h, op)
  {
    if op.Ask? {
      AskMatchesHistory(players, start, h, op);
    } else if IsWrongVersion(op) {
      RejectionMatchesHistory(players, start, h, op);
    } else {
      ReplyMatchesHistory(players, start, h, op);
    }
  }

  /** Main result: after any run a connection is what its history says. */
  lemma {:induction false} RunMatchesHistory(players: bool, start: nat, h: seq<Op>)
    ensures Run(NewConn(players, start), h) == FromHistory(players, start, h)
  {
    if h != [] {
      RunMatchesHistory(players, start, Front(h));
      StepMatchesHistory(players, start, Front(h), Last(h));
      assert Front(h) + [Last(h)] == h;
    }
  }

  /** And so is everything the user is told. */
  lemma NoticesMatchHistory(players: bool, start: nat, h: seq<Op>, op: Op)
    ensures Step(Run(NewConn(players, start), h), op).1 == ExpectedNotice(players, start, h, op)
  {
    RunMatchesHistory(players, start, h);
    StepMatchesHistory(players, start, h, op);
  }

  lemma AskingMatchesHistory(players: bool, start: nat, h: seq<Op>, op: Op)
    requires Asks(h, op)
    ensures Step(FromHistory(players, start, h), op).2 == ExpectedRequests(players, h, op)
  {
    RejectedSnoc(h, op);
    assert Step(FromHistory(players, start, h), op).2
        == var info := InfoRequest(if Rejected(h + [op]) then 48 else 49);
           if players then [info, PlayersPacket(LastChallenge(h))] else [info];
  }

  lemma OtherRequestsMatchHistory(players: bool, start: nat, h: seq<Op>, op: Op)
    requires !Asks(h, op)
    ensures Step(FromHistory(players, start, h), op).2 == ExpectedRequests(players, h, op)
  {
  }

  /** And everything that is sent to the server. */
  lemma RequestsMatchHistory(players: bool, start: nat, h: seq<Op>, op: Op)
    ensures Step(Run(NewConn(players, start), h), op).2 == ExpectedRequests(players, h, op)
  {
    RunMatchesHistory(players, start, h);
    if Asks(h, op) {
      AskingMatchesHistory(players, start, h, op);
    } else {
      OtherRequestsMatchHistory(players, start, h, op);
    }
  }

  /** A connection is valid until the server has been silent for 16 seconds. */
  lemma ValidWhileHeard(players: bool, start: nat, h: seq<Op>, now: nat)
    ensures IsValid(Run(NewConn(players, start), h), now) <==> now < LastHeard(h, start) + 16_000
  {
    RunMatchesHistory(players, start, h);
  }

  lemma {:induction false} RejectedStays(h: seq<Op>, more: seq<Op>)
    requires Rejected(h)
    ensures Rejected(h + more)
  {
    var i :| 0 <= i < |h| && IsWrongVersion(h[i]) && !Detected(h[..i]);
    var g := h + more;
    assert g[..i] == h[..i] && IsWrongVersion(g[i]) && !Detected(g[..i]);
  }

  /** The fallback to the legacy protocol is final. */
  lemma LegacyIsFinal(players: bool, start: nat, h: seq<Op>, more: seq<Op>)
    requires Run(NewConn(players, start), h).protocol == LEGACY_VERSION
    ensures Run(NewConn(players, start), h + more).protocol == LEGACY_VERSION
  {
    RunMatchesHistory(players, start, h);
    RunMatchesHistory(players, start, h + more);
    RejectedStays(h, more);
  }
}
