/** A game server's list of players (GetPlayersResponse in crates/xash3d-protocol/src/net/server.rs). The time
    is a float on the wire and four raw bytes here. */
module PlayersText {
  import opened Prelude
  import opened Cursors

  const HEADER: bytes := [0xff, 0xff, 0xff, 0xff, 68]

  type i32 = x: int | -0x8000_0000 <= x < 0x8000_0000

  datatype Player = Player(id: byte, name: bytes, frags: i32, time: bytes)

  /** Two's complement. */
  function FragsBytes(n: i32): bytes {
    ToLe(if n < 0 then n + 0x1_0000_0000 else n, 4)
  }

  function FragsOf(s: bytes): i32
    requires |s| == 4
  {
    FromLeIsBounded(s);
    Widths();
    var n := FromLe(s);
    if n < 0x8000_0000 then n else n - 0x1_0000_0000
  }

  lemma FragsRoundTrip(n: i32)
    ensures FragsOf(FragsBytes(n)) == n
  {
    Widths();
    FromLeInvertsToLe(if n < 0 then n + 0x1_0000_0000 else n, 4);
  }

  // Decoding

  /** How many players the packet claims to hold, and their bytes. */
  function Decode(src: bytes): Result<(byte, bytes), Error> {
    match ReadExpect(src, HEADER)
    case Err(e) => Err(CursorFailed(e))
    case Ok(r) =>
      match ReadU8(r.1)
      case Err(e) => Err(CursorFailed(e))
      case Ok(c) => Ok(c)
  }

  /** The next player, and where the cursor stands then: a player that breaks off is an error, but what was
      read of it stays consumed. */
  function NextPlayer(s: bytes): (Result<Player, CursorError>, bytes) {
    match ReadU8(s)
    case Err(e) => (Err(e), s)
    case Ok(id) =>
      match ReadCstr(id.1)
      case Err(e) => (Err(e), id.1)
      case Ok(name) =>
        match ReadBytes(name.1, 4)
        case Err(e) => (Err(e), name.1)
        case Ok(frags) =>
          match ReadBytes(frags.1, 4)
          case Err(e) => (Err(e), frags.1)
          case Ok(time) => (Ok(Player(id.0, name.0, FragsOf(frags.0), time.0)), time.1)
  }

  /** The iterator makes as many attempts as the packet claims players. */
  function Players(count: nat, s: bytes): seq<Result<Player, CursorError>> {
    if count == 0 then [] else
    var (p, rest) := NextPlayer(s);
    [p] + Players(count - 1, rest)
  }

  method GetPlayer(cur: Cursor) returns (r: Result<Player, CursorError>)
    requires cur.Valid()
    modifies cur
    ensures cur.Valid() && (r, cur.Rest()) == NextPlayer(old(cur.Rest()))
  {
    var id :- cur.GetU8();
    var name :- cur.GetCstr();
    var frags :- cur.GetBytes(4);
    var time :- cur.GetBytes(4);
    r := Ok(Player(id, name, FragsOf(frags), time));
  }

  /** The attempts that are left, one after the other. */
  method CollectPlayers(cur: Cursor, left: nat) returns (players: seq<Result<Player, CursorError>>)
    requires cur.Valid()
    modifies cur
    ensures cur.Valid() && players == Players(left, old(cur.Rest()))
  {
    if left == 0 {
      return [];
    }
    var p := GetPlayer(cur);
    var more := CollectPlayers(cur, left - 1);
    players := [p] + more;
  }

  // Encoding

  function PlayerBytes(p: Player): bytes {
    [p.id] + (Cstr(p.name) + (FragsBytes(p.frags) + p.time))
  }

  function ListBytes(ps: seq<Player>): bytes {
    if ps == [] then [] else ListBytes(Front(ps)) + PlayerBytes(Last(ps))
  }

  function Encode(ps: seq<Player>): bytes
    requires |ps| <= 255
  {
    HEADER + ([|ps|] + ListBytes(ps))
  }

  method PutPlayer(cur: CursorMut, p: Player) returns (r: Result<(), CursorError>)
    requires cur.Valid()
    modifies cur, cur.buffer
    ensures cur.Appended(PlayerBytes(p), r)
  {
    ghost var w := cur.Written();
    var _ :- cur.PutU8(p.id);
    var _ :- cur.PutCstr(p.name);
    var _ :- cur.PutBytes(FragsBytes(p.frags));
    r := cur.PutBytes(p.time);
    Assoc(w + [p.id] + Cstr(p.name), FragsBytes(p.frags), p.time);
    Assoc(w + [p.id], Cstr(p.name), FragsBytes(p.frags) + p.time);
    Assoc(w, [p.id], Cstr(p.name) + (FragsBytes(p.frags) + p.time));
  }

  lemma {:induction false} PrefixIsShorter(ps: seq<Player>, n: nat)
    requires n <= |ps|
    ensures |ListBytes(ps[..n])| <= |ListBytes(ps)|
  {
    if n == |ps| {
      assert ps[..n] == ps;
    } else {
      assert Front(ps)[..n] == ps[..n];
      PrefixIsShorter(Front(ps), n);
    }
  }

  lemma NextPlayerBytes(w: bytes, ps: seq<Player>, i: nat)
    requires i < |ps|
    ensures w + ListBytes(ps[..i + 1]) == w + ListBytes(ps[..i]) + PlayerBytes(ps[i])
    ensures |ListBytes(ps[..i + 1])| == |ListBytes(ps[..i])| + |PlayerBytes(ps[i])| <= |ListBytes(ps)|
  {
    assert Front(ps[..i + 1]) == ps[..i] && Last(ps[..i + 1]) == ps[i];
    PrefixIsShorter(ps, i + 1);
    Assoc(w, ListBytes(ps[..i]), PlayerBytes(ps[i]));
  }

  method PutList(cur: CursorMut, ps: seq<Player>) returns (r: Result<(), CursorError>)
    requires cur.Valid()
    modifies cur, cur.buffer
    ensures cur.Appended(ListBytes(ps), r)
  {
    ghost var w := cur.Written();
    assert w + ListBytes([]) == w;
    for i := 0 to |ps|
      invariant cur.Valid() && cur.Pos() == old(cur.Pos()) + |ListBytes(ps[..i])|
      invariant cur.Written() == w + ListBytes(ps[..i])
      invariant forall j | 0 <= j < old(cur.Pos()) :: cur.buffer[j] == old(cur.buffer[j])
    {
      NextPlayerBytes(w, ps, i);
      var _ :- PutPlayer(cur, ps[i]);
    }
    assert ps[..|ps|] == ps;
    r := Ok(());
  }

  /** Puts the players behind a reserved byte, then fills in their number. */
  method PutPlayers(cur: CursorMut, ps: seq<Player>) returns (r: Result<nat, CursorError>)
    requires cur.Valid() && |ps| <= 255
    modifies cur.buffer
    ensures r.Ok? <==> 1 + |ListBytes(ps)| <= cur.Available()
    ensures r.Err? ==> r.error == BufferOverflow
    ensures forall i | 0 <= i < cur.Pos() :: cur.buffer[i] == old(cur.buffer[i])
    ensures r.Ok? ==> cur.Pos() <= r.value <= cur.end && cur.buffer[cur.Pos()..r.value] == [|ps|] + ListBytes(ps)
  {
    var parts :- cur.Split(1);
    var (head, tail) := parts;
    var _ :- PutList(tail, ps);
    assert tail.Written() == ListBytes(ps);
    FillReserved(head, tail, |ps|);
    r := Ok(tail.Pos());
  }

  /** The encoder succeeds exactly when the packet fits. It panics on more than 255 players. */
  method EncodePacket(ps: seq<Player>, buffer: array<byte>) returns (r: Result<nat, Error>)
    requires |ps| <= 255
    modifies buffer
    ensures r.Ok? <==> |Encode(ps)| <= buffer.Length
    ensures r.Err? ==> r.error == CursorFailed(BufferOverflow)
    ensures r.Ok? ==> r.value <= buffer.Length && buffer[..r.value] == Encode(ps)
  {
    var cur := new CursorMut(buffer);
    var header := cur.PutBytes(HEADER);
    if header.Err? {
      return Err(CursorFailed(header.error));
    }
    assert buffer[..cur.Pos()] == cur.Written() == HEADER;
    var players := PutPlayers(cur, ps);
    if players.Err? {
      return Err(CursorFailed(players.error));
    }
    var n := players.value;
    assert buffer[..n] == buffer[..cur.Pos()] + buffer[cur.Pos()..n];
    r := Ok(n);
  }

  // Any bytes

  /** Frags are a little-endian two's complement number. */
  lemma FragsOfBytes(a: byte, b: byte, c: byte, d: byte)
    ensures FragsOf([a, b, c, d])
         == a + 0x100 * b + 0x1_0000 * c + 0x100_0000 * d - if d >= 0x80 then 0x1_0000_0000 else 0
  {
    assert [d][1..] == [] && FromLe([d]) == d;
    FromLeFirst(c, [d]);
    FromLeFirst(b, [c] + [d]);
    FromLeFirst(a, [b] + ([c] + [d]));
    assert [a, b, c, d] == [a] + ([b] + ([c] + [d]));
  }

  lemma FromLeFirst(b: byte, rest: bytes)
    ensures FromLe([b] + rest) == b + 0x100 * FromLe(rest)
  {
    assert ([b] + rest)[1..] == rest;
  }

  /** A player that breaks off in front of its name's end. */
  lemma NoName(id: byte, s: bytes)
    requires NUL !in s
    ensures NextPlayer([]) == (Err(NeedMoreBytes(1)), [])
    ensures NextPlayer([id] + s) == (Err(NeedMoreBytes(1)), s)
  {
    ReadU8Of(id, s);
    assert ReadCstr(s) == Err(NeedMoreBytes(1));
  }

  /** A player with a name: the eight bytes behind it are frags and time; what was read of them stays consumed. */
  lemma NamedPlayer(id: byte, name: bytes, rest: bytes)
    requires NUL !in name
    ensures NextPlayer([id] + (Cstr(name) + rest))
         == if |rest| < 4 then (Err(NeedMoreBytes(4 - |rest|)), rest)
            else if |rest| < 8 then (Err(NeedMoreBytes(8 - |rest|)), rest[4..])
            else (Ok(Player(id, name, FragsOf(rest[..4]), rest[4..8])), rest[8..])
  {
    ReadU8Of(id, Cstr(name) + rest);
    ReadCstrOf(name, rest);
    if |rest| >= 8 {
      assert rest[4..][..4] == rest[4..8] && rest[4..][4..] == rest[8..];
    }
  }

  /** Where the cursor stands after some attempts. */
  function Behind(s: bytes, attempts: nat): bytes {
    if attempts == 0 then s else Behind(NextPlayer(s).1, attempts - 1)
  }

  /** There are always as many attempts as the packet claims players, even behind one that broke off. */
  lemma {:induction false} EveryAttemptIsMade(count: nat, s: bytes, i: nat)
    ensures |Players(count, s)| == count
    ensures i < count ==> Players(count, s)[i] == NextPlayer(Behind(s, i)).0
    decreases count
  {
    if count > 0 {
      EveryAttemptIsMade(count - 1, NextPlayer(s).1, if i > 0 then i - 1 else 0);
    }
  }

  // Round trip

  predicate Encodable(p: Player) {
    NUL !in p.name && |p.time| == 4
  }

  lemma ReadBytesOf(a: bytes, rest: bytes)
    ensures ReadBytes(a + rest, |a|) == Ok((a, rest))
  {
    assert (a + rest)[..|a|] == a && (a + rest)[|a|..] == rest;
  }

  lemma PlayerRoundTrip(p: Player, rest: bytes)
    requires Encodable(p)
    ensures NextPlayer(PlayerBytes(p) + rest) == (Ok(p), rest)
  {
    var frags := FragsBytes(p.frags);
    Assoc([p.id], Cstr(p.name) + (frags + p.time), rest);
    Assoc(Cstr(p.name), frags + p.time, rest);
    Assoc(frags, p.time, rest);
    ReadU8Of(p.id, Cstr(p.name) + (frags + (p.time + rest)));
    ReadCstrOf(p.name, frags + (p.time + rest));
    ReadBytesOf(frags, p.time + rest);
    ReadBytesOf(p.time, rest);
    FragsRoundTrip(p.frags);
  }

  function AllOk(ps: seq<Player>): seq<Result<Player, CursorError>> {
    if ps == [] then [] else [Ok(ps[0])] + AllOk(ps[1..])
  }

  lemma {:induction false} ListBytesFirst(ps: seq<Player>)
    requires ps != []
    ensures ListBytes(ps) == PlayerBytes(ps[0]) + ListBytes(ps[1..])
  {
    if |ps| == 1 {
      assert Front(ps) == [] == ps[1..] && PlayerBytes(ps[0]) + [] == PlayerBytes(ps[0]);
    } else {
      ListBytesFirst(Front(ps));
      assert Front(ps)[1..] == Front(ps[1..]) && Last(ps[1..]) == Last(ps);
      Assoc(PlayerBytes(ps[0]), ListBytes(Front(ps[1..])), PlayerBytes(Last(ps)));
    }
  }

  lemma {:induction false} PlayersRoundTrip(ps: seq<Player>)
    requires forall p | p in ps :: Encodable(p)
    ensures Players(|ps|, ListBytes(ps)) == AllOk(ps)
  {
    if ps != [] {
      ListBytesFirst(ps);
      PlayerRoundTrip(ps[0], ListBytes(ps[1..]));
      PlayersRoundTrip(ps[1..]);
    }
  }

  /** The list that was encoded is what the iterator yields. */
  lemma DecodeInvertsEncode(ps: seq<Player>)
    requires |ps| <= 255 && forall p | p in ps :: Encodable(p)
    ensures Decode(Encode(ps)) == Ok((|ps| as byte, ListBytes(ps)))
    ensures Players(|ps|, ListBytes(ps)) == AllOk(ps)
  {
    ReadExpectOf(HEADER, [|ps| as byte] + ListBytes(ps));
    ReadU8Of(|ps|, ListBytes(ps));
    PlayersRoundTrip(ps);
  }
}
