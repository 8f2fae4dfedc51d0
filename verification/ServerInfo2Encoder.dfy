/** Writing the A2S_INFO reply into a buffer: the flag byte is reserved with `split`, the extras go behind
    it, and it is filled in last (crates/xash3d-protocol/src/net/server.rs). */
module ServerInfo2Encoder {
  import opened Prelude
  import opened Types
  import opened Cursors
  import opened ServerInfo2

  method PutTwo(cur: CursorMut, a: bytes, b: bytes) returns (r: Result<(), CursorError>)
    requires cur.Valid()
    modifies cur, cur.buffer
    ensures cur.Appended(Cstr(a) + Cstr(b), r)
  {
    ghost var w := cur.Written();
    var _ :- cur.PutCstr(a);
    r := cur.PutCstr(b);
    Assoc(w, Cstr(a), Cstr(b));
  }

  method PutNames(cur: CursorMut, n: Names) returns (r: Result<(), CursorError>)
    requires cur.Valid()
    modifies cur, cur.buffer
    ensures cur.Appended(NamesBytes(n), r)
  {
    ghost var w := cur.Written();
    var _ :- cur.PutU8(n.protocol);
    var _ :- PutTwo(cur, n.host, n.map_);
    r := PutTwo(cur, n.gamedir, n.game);
    ghost var dirs := Cstr(n.gamedir) + Cstr(n.game);
    Assoc(w + [n.protocol], Cstr(n.host) + Cstr(n.map_), dirs);
    Assoc(Cstr(n.host), Cstr(n.map_), dirs);
    Assoc(w, [n.protocol], Cstr(n.host) + (Cstr(n.map_) + dirs));
  }

  method PutCounts(cur: CursorMut, c: Counts) returns (r: Result<(), CursorError>)
    requires cur.Valid()
    modifies cur, cur.buffer
    ensures cur.Appended(CountsBytes(c), r)
  {
    ghost var w := cur.Written();
    var _ :- cur.PutU8((c.players + c.bots) % 256);
    var _ :- cur.PutU8(c.maxPlayers);
    r := cur.PutU8(c.bots);
    assert w + [(c.players + c.bots) % 256] + [c.maxPlayers] + [c.bots] == w + CountsBytes(c);
  }

  /** The four single-byte traits. */
  method PutKinds(cur: CursorMut, t: Traits) returns (r: Result<(), CursorError>)
    requires cur.Valid()
    modifies cur, cur.buffer
    ensures cur.Appended([ServerTypeByte(t.ty), OsByte(t.os), BoolByte(t.password), BoolByte(t.secure)], r)
  {
    ghost var w := cur.Written();
    ghost var a, b, c, d := ServerTypeByte(t.ty), OsByte(t.os), BoolByte(t.password), BoolByte(t.secure);
    var _ :- cur.PutU8(ServerTypeByte(t.ty));
    var _ :- cur.PutU8(OsByte(t.os));
    var _ :- cur.PutU8(BoolByte(t.password));
    r := cur.PutU8(BoolByte(t.secure));
    assert w + [a] + [b] + [c] + [d] == w + [a, b, c, d];
  }

  method PutTraits(cur: CursorMut, t: Traits) returns (r: Result<(), CursorError>)
    requires cur.Valid()
    modifies cur, cur.buffer
    ensures cur.Appended(TraitsBytes(t), r)
  {
    ghost var w := cur.Written();
    var _ :- PutKinds(cur, t);
    r := cur.PutCstr(t.version);
    Assoc(w, [ServerTypeByte(t.ty), OsByte(t.os), BoolByte(t.password), BoolByte(t.secure)], Cstr(t.version));
  }

  /** Everything behind the names and in front of the flag byte. */
  function BodyBytes(x: Info): bytes {
    ToLe(x.appId % 0x1_0000, 2) + (CountsBytes(x.counts) + TraitsBytes(x.traits))
  }

  method PutBody(cur: CursorMut, x: Info) returns (r: Result<(), CursorError>)
    requires cur.Valid()
    modifies cur, cur.buffer
    ensures cur.Appended(BodyBytes(x), r)
  {
    ghost var w, appId := cur.Written(), ToLe(x.appId % 0x1_0000, 2);
    var _ :- cur.PutBytes(ToLe(x.appId % 0x1_0000, 2));
    var _ :- PutCounts(cur, x.counts);
    r := PutTraits(cur, x.traits);
    Assoc(w + appId, CountsBytes(x.counts), TraitsBytes(x.traits));
    Assoc(w, appId, CountsBytes(x.counts) + TraitsBytes(x.traits));
  }

  method PutFixed(cur: CursorMut, x: Info) returns (r: Result<(), CursorError>)
    requires cur.Valid()
    modifies cur, cur.buffer
    ensures cur.Appended(FixedBytes(x), r)
  {
    ghost var w := cur.Written();
    var _ :- cur.PutBytes(HEADER);
    var _ :- PutNames(cur, x.names);
    r := PutBody(cur, x);
    Assoc(w + HEADER, NamesBytes(x.names), BodyBytes(x));
    Assoc(w, HEADER, NamesBytes(x.names) + BodyBytes(x));
  }

  function Done<T>(r: Result<T, CursorError>): Result<(), CursorError> {
    if r.Ok? then Ok(()) else Err(r.error)
  }

  /** An optional field: if it is present its flag is set and its bytes are written. */
  method PutFlagged(cur: CursorMut, bits: nat, flag: byte, present: bool, s: bytes) returns (r: Result<nat, CursorError>)
    requires cur.Valid() && (!present ==> s == [])
    modifies cur, cur.buffer
    ensures cur.Appended(s, Done(r))
    ensures r.Ok? ==> r.value == bits + if present then flag else 0
  {
    if present {
      var _ :- cur.PutBytes(s);
      return Ok(bits + flag);
    }
    r := Ok(bits);
  }

  /** The extras in wire order; returns the flags that announce them. */
  method PutExtras(cur: CursorMut, x: Info) returns (r: Result<nat, CursorError>)
    requires cur.Valid()
    modifies cur, cur.buffer
    ensures cur.Appended(ExtrasBytes(x), Done(r))
    ensures r.Ok? ==> r.value == FlagBits(x)
  {
    ghost var w, e := cur.Written(), x.extras;
    var bits :- PutIds(cur, x.extras);
    var bits' :- PutFlagged(cur, bits, SOURCE_TV, x.extras.sourceTv.Some?, SourceTvBytes(x.extras));
    r := PutLast(cur, x, bits');
    ghost var last := KeywordsBytes(e) + LongAppIdBytes(x);
    Assoc(w + (PortBytes(e) + SteamIdBytes(e)), SourceTvBytes(e), last);
    Assoc(w, PortBytes(e) + SteamIdBytes(e), SourceTvBytes(e) + last);
    Assoc(PortBytes(e), SteamIdBytes(e), SourceTvBytes(e) + last);
  }

  method PutIds(cur: CursorMut, e: Extras) returns (r: Result<nat, CursorError>)
    requires cur.Valid()
    modifies cur, cur.buffer
    ensures cur.Appended(PortBytes(e) + SteamIdBytes(e), Done(r))
    ensures r.Ok? ==> r.value == (if e.port.Some? then PORT else 0) + (if e.steamId.Some? then STEAM_ID else 0)
  {
    ghost var w := cur.Written();
    var bits :- PutFlagged(cur, 0, PORT, e.port.Some?, PortBytes(e));
    r := PutFlagged(cur, bits, STEAM_ID, e.steamId.Some?, SteamIdBytes(e));
    Assoc(w, PortBytes(e), SteamIdBytes(e));
  }

  method PutLast(cur: CursorMut, x: Info, bits: nat) returns (r: Result<nat, CursorError>)
    requires cur.Valid()
    modifies cur, cur.buffer
    ensures cur.Appended(KeywordsBytes(x.extras) + LongAppIdBytes(x), Done(r))
    ensures r.Ok? ==>
              r.value == bits + (if x.extras.keywords.Some? then KEYWORDS else 0) + (if HasLongAppId(x) then APP_ID else 0)
  {
    ghost var w := cur.Written();
    var bits' :- PutFlagged(cur, bits, KEYWORDS, x.extras.keywords.Some?, KeywordsBytes(x.extras));
    r := PutFlagged(cur, bits', APP_ID, HasLongAppId(x), LongAppIdBytes(x));
    Assoc(w, KeywordsBytes(x.extras), LongAppIdBytes(x));
  }

  /** The part behind the fixed fields: the flag byte is reserved first and written last. Returns where the
      packet ends. */
  method PutTrailer(cur: CursorMut, x: Info) returns (r: Result<nat, CursorError>)
    requires cur.Valid()
    modifies cur.buffer
    ensures r.Ok? <==> 1 + |ExtrasBytes(x)| <= cur.Available()
    ensures r.Err? ==> r.error == BufferOverflow
    ensures forall i | 0 <= i < cur.Pos() :: cur.buffer[i] == old(cur.buffer[i])
    ensures r.Ok? ==> cur.Pos() <= r.value <= cur.end && cur.buffer[cur.Pos()..r.value] == TrailerBytes(x)
  {
    var parts :- cur.Split(1);
    var (head, tail) := parts;
    var bits :- PutExtras(tail, x);
    assert tail.Written() == ExtrasBytes(x);
    if bits == 0 {
      return Ok(cur.Pos());
    }
    FillReserved(head, tail, bits);
    r := Ok(tail.Pos());
  }

  /** The encoder. It succeeds exactly when the buffer holds the fixed part, one more byte, and the extras:
      the flag byte is reserved even when no flag is set and the packet ends in front of it. */
  method EncodePacket(x: Info, buffer: array<byte>) returns (r: Result<nat, Error>)
    modifies buffer
    ensures r.Ok? <==> buffer.Length >= |FixedBytes(x)| + 1 + |ExtrasBytes(x)|
    ensures r.Err? ==> r.error == CursorFailed(BufferOverflow)
    ensures r.Ok? ==> r.value <= buffer.Length && buffer[..r.value] == Encode(x)
  {
    var cur := new CursorMut(buffer);
    var fixed := PutFixed(cur, x);
    if fixed.Err? {
      return Err(CursorFailed(fixed.error));
    }
    assert buffer[..cur.Pos()] == cur.Written() == FixedBytes(x);
    var trailer := PutTrailer(cur, x);
    if trailer.Err? {
      return Err(CursorFailed(trailer.error));
    }
    var n := trailer.value;
    assert buffer[..n] == buffer[..cur.Pos()] + buffer[cur.Pos()..n];
    r := Ok(n);
  }
}
