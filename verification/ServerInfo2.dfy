/** The A2S_INFO reply of Valve's "Server queries" document, as GetServerInfo2Response encodes and decodes
    it (crates/xash3d-protocol/src/net/server.rs). */
module ServerInfo2 {
  import opened Prelude
  import opened Types
  import opened Cursors

  const HEADER: bytes := [0xff, 0xff, 0xff, 0xff, 0x49]

  const APP_ID: byte := 0x01
  const STEAM_ID: byte := 0x10
  const KEYWORDS: byte := 0x20
  const SOURCE_TV: byte := 0x40
  const PORT: byte := 0x80

  datatype SourceTv = SourceTv(port: u16, name: bytes)

  /** Protocol version and the four leading names. */
  datatype Names = Names(protocol: byte, host: bytes, map_: bytes, gamedir: bytes, game: bytes)

  datatype Counts = Counts(players: byte, maxPlayers: byte, bots: byte)

  datatype Traits = Traits(ty: ServerType, os: Os, password: bool, secure: bool, version: bytes)

  datatype Extras = Extras(
    port: Option<u16>, steamId: Option<u64>, sourceTv: Option<SourceTv>, keywords: Option<bytes>)

  datatype Info = Info(names: Names, appId: u64, counts: Counts, traits: Traits, extras: Extras)

  function BoolByte(b: bool): byte {
    if b then 1 else 0
  }

  predicate HasBit(bits: byte, flag: byte)
    requires flag > 0
  {
    bits / flag % 2 == 1
  }

  // Decoding

  type Parse<+T> = Result<(T, bytes), Error>

  function Lift<T>(r: Read<T>): Parse<T> {
    match r
    case Ok(p) => Ok(p)
    case Err(e) => Err(CursorFailed(e))
  }

  function ReadNames(s: bytes): Read<Names> {
    var (protocol, s) :- ReadU8(s);
    var (host, s) :- ReadCstr(s);
    var (map_, s) :- ReadCstr(s);
    var (gamedir, s) :- ReadCstr(s);
    var (game, s) :- ReadCstr(s);
    Ok((Names(protocol, host, map_, gamedir, game), s))
  }

  /** The client count on the wire includes the bots. */
  function ParseCounts(s: bytes): Parse<Counts> {
    var (clients, s) :- Lift(ReadU8(s));
    var (maxPlayers, s) :- Lift(ReadU8(s));
    var (bots, s) :- Lift(ReadU8(s));
    if clients < bots then Err(InvalidPacket) else Ok((Counts(clients - bots, maxPlayers, bots), s))
  }

  function ReadTraits(s: bytes): Read<Traits> {
    var (ty, s) :- ReadU8(s);
    var (os, s) :- ReadU8(s);
    var (password, s) :- ReadU8(s);
    var (secure, s) :- ReadU8(s);
    var (version, s) :- ReadCstr(s);
    Ok((Traits(ServerTypeOf(ty), OsOf(os), password != 0, secure != 0, version), s))
  }

  function ReadSourceTv(s: bytes): Read<SourceTv> {
    var (port, s) :- ReadU16(s);
    var (name, s) :- ReadCstr(s);
    Ok((SourceTv(port, name), s))
  }

  /** A field that is on the wire only when its bit is set. */
  function ReadIf<T>(s: bytes, present: bool, read: bytes -> Read<T>): Read<Option<T>> {
    if !present then Ok((None, s)) else
    var (v, rest) :- read(s);
    Ok((Some(v), rest))
  }

  function ReadExtras(s: bytes, bits: byte): Read<Extras> {
    var (port, s) :- ReadIf<u16>(s, HasBit(bits, PORT), ReadU16);
    var (steamId, s) :- ReadIf<u64>(s, HasBit(bits, STEAM_ID), ReadU64);
    var (sourceTv, s) :- ReadIf(s, HasBit(bits, SOURCE_TV), ReadSourceTv);
    var (keywords, s) :- ReadIf(s, HasBit(bits, KEYWORDS), ReadCstr);
    Ok((Extras(port, steamId, sourceTv, keywords), s))
  }

  const NO_EXTRAS := Extras(None, None, None, None)

  /** The part behind the fixed fields: nothing, or a flag byte and what it announces. */
  function ReadTrailer(s: bytes, appId: u64): Read<(Extras, u64)> {
    if s == [] then Ok(((NO_EXTRAS, appId), s)) else
    var (bits, s) :- ReadU8(s);
    var (extras, s) :- ReadExtras(s, bits);
    var (longAppId, s) :- ReadIf<u64>(s, HasBit(bits, APP_ID), ReadU64);
    var id: u64 := if longAppId.Some? then longAppId.value else appId;
    Ok(((extras, id), s))
  }

  /** The part of the decoder behind the names. */
  function DecodeBody(names: Names, s: bytes): Result<Info, Error> {
    var (appId, s) :- Lift(ReadU16(s));
    var (counts, s) :- ParseCounts(s);
    var (traits, s) :- Lift(ReadTraits(s));
    var (trailer, s) :- Lift(ReadTrailer(s, appId));
    if s != [] then Err(CursorFailed(ExpectEmpty))
    else Ok(Info(names, trailer.1, counts, traits, trailer.0))
  }

  function Decode(src: bytes): Result<Info, Error> {
    var (_, s) :- Lift(ReadExpect(src, HEADER));
    var (names, s) :- Lift(ReadNames(s));
    DecodeBody(names, s)
  }

  // Encoding

  function NamesBytes(n: Names): bytes {
    [n.protocol] + (Cstr(n.host) + (Cstr(n.map_) + (Cstr(n.gamedir) + Cstr(n.game))))
  }

  function CountsBytes(c: Counts): bytes {
    [(c.players + c.bots) % 256, c.maxPlayers, c.bots]
  }

  function TraitsBytes(t: Traits): bytes {
    [ServerTypeByte(t.ty), OsByte(t.os), BoolByte(t.password), BoolByte(t.secure)] + Cstr(t.version)
  }

  /** Everything in front of the flag byte. */
  function FixedBytes(x: Info): bytes {
    HEADER + (NamesBytes(x.names) + (ToLe(x.appId % 0x1_0000, 2) + (CountsBytes(x.counts) + TraitsBytes(x.traits))))
  }

  predicate HasLongAppId(x: Info) {
    x.appId >= 0x1_0000
  }

  function FlagBits(x: Info): byte {
    (if x.extras.port.Some? then PORT else 0) +
    (if x.extras.steamId.Some? then STEAM_ID else 0) +
    (if x.extras.sourceTv.Some? then SOURCE_TV else 0) +
    (if x.extras.keywords.Some? then KEYWORDS else 0) +
    (if HasLongAppId(x) then APP_ID else 0)
  }

  function PortBytes(e: Extras): bytes {
    if e.port.Some? then ToLe(e.port.value, 2) else []
  }

  function SteamIdBytes(e: Extras): bytes {
    if e.steamId.Some? then ToLe(e.steamId.value, 8) else []
  }

  function SourceTvBytes(e: Extras): bytes {
    if e.sourceTv.Some? then ToLe(e.sourceTv.value.port, 2) + Cstr(e.sourceTv.value.name) else []
  }

  function KeywordsBytes(e: Extras): bytes {
    if e.keywords.Some? then Cstr(e.keywords.value) else []
  }

  function LongAppIdBytes(x: Info): bytes {
    if HasLongAppId(x) then ToLe(x.appId, 8) else []
  }

  function ExtrasBytes(x: Info): bytes {
    PortBytes(x.extras) + (SteamIdBytes(x.extras) + (SourceTvBytes(x.extras) + (KeywordsBytes(x.extras) + LongAppIdBytes(x))))
  }

  /** The encoded packet; the flag byte is only there when a flag is set. */
  function Encode(x: Info): bytes {
    FixedBytes(x) + TrailerBytes(x)
  }

  function TrailerBytes(x: Info): bytes {
    if FlagBits(x) == 0 then [] else [FlagBits(x)] + ExtrasBytes(x)
  }

  // Round trip

  predicate NamesOk(n: Names) {
    NUL !in n.host && NUL !in n.map_ && NUL !in n.gamedir && NUL !in n.game
  }

  predicate ExtrasOk(e: Extras) {
    (e.sourceTv.Some? ==> NUL !in e.sourceTv.value.name) && (e.keywords.Some? ==> NUL !in e.keywords.value)
  }

  /** What the wire format can carry. */
  predicate Encodable(x: Info) {
    NamesOk(x.names) && NUL !in x.traits.version && ExtrasOk(x.extras) && x.counts.players + x.counts.bots <= 255
  }

  lemma NamesRoundTrip(n: Names, rest: bytes)
    requires NamesOk(n)
    ensures ReadNames(NamesBytes(n) + rest) == Ok((n, rest))
  {
    var r4 := Cstr(n.game);
    var r3 := Cstr(n.gamedir) + r4;
    var r2 := Cstr(n.map_) + r3;
    var r1 := Cstr(n.host) + r2;
    Assoc([n.protocol], r1, rest);
    Assoc(Cstr(n.host), r2, rest);
    Assoc(Cstr(n.map_), r3, rest);
    Assoc(Cstr(n.gamedir), r4, rest);
    ReadU8Of(n.protocol, r1 + rest);
    ReadCstrOf(n.host, r2 + rest);
    ReadCstrOf(n.map_, r3 + rest);
    ReadCstrOf(n.gamedir, r4 + rest);
    ReadCstrOf(n.game, rest);
  }

  lemma CountsRoundTrip(c: Counts, rest: bytes)
    requires c.players + c.bots <= 255
    ensures ParseCounts(CountsBytes(c) + rest) == Ok((c, rest))
  {
    var s := CountsBytes(c) + rest;
    assert s[1..][1..][1..] == rest;
  }

  lemma TraitsRoundTrip(t: Traits, rest: bytes)
    requires NUL !in t.version
    ensures ReadTraits(TraitsBytes(t) + rest) == Ok((t, rest))
  {
    var s := TraitsBytes(t) + rest;
    assert s[1..][1..][1..][1..] == Cstr(t.version) + rest;
    ReadCstrOf(t.version, rest);
  }

  lemma FlagsRoundTrip(x: Info)
    ensures HasBit(FlagBits(x), PORT) == x.extras.port.Some?
    ensures HasBit(FlagBits(x), STEAM_ID) == x.extras.steamId.Some?
    ensures HasBit(FlagBits(x), SOURCE_TV) == x.extras.sourceTv.Some?
    ensures HasBit(FlagBits(x), KEYWORDS) == x.extras.keywords.Some?
    ensures HasBit(FlagBits(x), APP_ID) == HasLongAppId(x)
  {
  }

  /** The bits of the flag byte as Valve's document assigns them. */
  lemma FlagByte(x: Info)
    ensures FlagBits(x)
         == (if x.extras.port.Some? then 0x80 else 0) + (if x.extras.steamId.Some? then 0x10 else 0)
          + (if x.extras.sourceTv.Some? then 0x40 else 0) + (if x.extras.keywords.Some? then 0x20 else 0)
          + (if x.appId > 0xffff then 0x01 else 0)
  {
  }

  lemma SourceTvRoundTrip(tv: SourceTv, rest: bytes)
    requires NUL !in tv.name
    ensures ReadSourceTv(ToLe(tv.port, 2) + Cstr(tv.name) + rest) == Ok((tv, rest))
  {
    Assoc(ToLe(tv.port, 2), Cstr(tv.name), rest);
    ReadU16Of(tv.port, Cstr(tv.name) + rest);
    ReadCstrOf(tv.name, rest);
  }

  lemma PortRoundTrip(e: Extras, rest: bytes)
    ensures ReadIf<u16>(PortBytes(e) + rest, e.port.Some?, ReadU16) == Ok((e.port, rest))
  {
    if e.port.Some? {
      ReadU16Of(e.port.value, rest);
    } else {
      assert [] + rest == rest;
    }
  }

  lemma SteamIdRoundTrip(e: Extras, rest: bytes)
    ensures ReadIf<u64>(SteamIdBytes(e) + rest, e.steamId.Some?, ReadU64) == Ok((e.steamId, rest))
  {
    if e.steamId.Some? {
      ReadU64Of(e.steamId.value, rest);
    } else {
      assert [] + rest == rest;
    }
  }

  lemma SourceTvPartRoundTrip(e: Extras, rest: bytes)
    requires ExtrasOk(e)
    ensures ReadIf(SourceTvBytes(e) + rest, e.sourceTv.Some?, ReadSourceTv) == Ok((e.sourceTv, rest))
  {
    if e.sourceTv.Some? {
      SourceTvRoundTrip(e.sourceTv.value, rest);
    } else {
      assert [] + rest == rest;
    }
  }

  lemma KeywordsRoundTrip(e: Extras, rest: bytes)
    requires ExtrasOk(e)
    ensures ReadIf(KeywordsBytes(e) + rest, e.keywords.Some?, ReadCstr) == Ok((e.keywords, rest))
  {
    if e.keywords.Some? {
      ReadCstrOf(e.keywords.value, rest);
    } else {
      assert [] + rest == rest;
    }
  }

  lemma ExtrasRoundTrip(x: Info)
    requires ExtrasOk(x.extras)
    ensures ReadExtras(ExtrasBytes(x), FlagBits(x)) == Ok((x.extras, LongAppIdBytes(x)))
  {
    FlagsRoundTrip(x);
    var e := x.extras;
    var r4 := LongAppIdBytes(x);
    var r3 := KeywordsBytes(e) + r4;
    var r2 := SourceTvBytes(e) + r3;
    PortRoundTrip(e, SteamIdBytes(e) + r2);
    SteamIdRoundTrip(e, r2);
    SourceTvPartRoundTrip(e, r3);
    KeywordsRoundTrip(e, r4);
  }

  lemma LongAppIdRoundTrip(x: Info)
    ensures ReadIf<u64>(LongAppIdBytes(x), HasLongAppId(x), ReadU64)
         == Ok((if HasLongAppId(x) then Some(x.appId) else None, []))
  {
    if HasLongAppId(x) {
      ReadU64Of(x.appId, []);
      assert ToLe(x.appId, 8) + [] == ToLe(x.appId, 8);
    }
  }

  lemma FlagsAnnounce(x: Info)
    ensures FlagBits(x) == 0 <==> x.extras == NO_EXTRAS && !HasLongAppId(x)
    ensures HasBit(FlagBits(x), APP_ID) == HasLongAppId(x)
  {
    FlagsRoundTrip(x);
  }

  lemma TrailerRoundTrip(x: Info)
    requires ExtrasOk(x.extras)
    ensures ReadTrailer(TrailerBytes(x), x.appId % 0x1_0000) == Ok(((x.extras, x.appId), []))
  {
    FlagsAnnounce(x);
    if FlagBits(x) != 0 {
      ReadU8Of(FlagBits(x), ExtrasBytes(x));
      ExtrasRoundTrip(x);
      LongAppIdRoundTrip(x);
    }
  }

  /** Main result: everything the format can carry survives. */
  lemma DecodeInvertsEncode(x: Info)
    requires Encodable(x)
    ensures Decode(Encode(x)) == Ok(x)
  {
    var trailer := TrailerBytes(x);
    var traits := TraitsBytes(x.traits);
    var counts := CountsBytes(x.counts);
    var appId := ToLe(x.appId % 0x1_0000, 2);
    var names := NamesBytes(x.names);
    Assoc(HEADER, names + (appId + (counts + traits)), trailer);
    Assoc(names, appId + (counts + traits), trailer);
    Assoc(appId, counts + traits, trailer);
    Assoc(counts, traits, trailer);
    ReadExpectOf(HEADER, names + (appId + (counts + (traits + trailer))));
    NamesRoundTrip(x.names, appId + (counts + (traits + trailer)));
    ReadU16Of(x.appId % 0x1_0000, counts + (traits + trailer));
    CountsRoundTrip(x.counts, traits + trailer);
    TraitsRoundTrip(x.traits, trailer);
    TrailerRoundTrip(x);
  }

  /** Any values of the fixed fields are understood: bots are among the clients, every byte but 0 means yes, and a letter
      that is none of the known ones means unknown. */
  lemma FixedFieldsAreRead(
      n: Names, appId: u16, clients: byte, maxPlayers: byte, bots: byte, ty: byte, os: byte, password: byte, secure: byte,
      version: bytes, trailer: bytes)
    requires NamesOk(n) && NUL !in version
    ensures var counts, traits := [clients, maxPlayers, bots], [ty, os, password, secure] + Cstr(version);
            Decode([0xff, 0xff, 0xff, 0xff, 'I' as int] + (NamesBytes(n) + (ToLe(appId, 2) + (counts + (traits + trailer))))) ==
            if clients < bots then Err(InvalidPacket)
            else FinishWith(Info(n, appId, Counts(clients - bots, maxPlayers, bots),
                                 Traits(ServerTypeOf(ty), OsOf(os), password != 0, secure != 0, version), NO_EXTRAS), trailer)
  {
    var counts, traits := [clients, maxPlayers, bots], [ty, os, password, secure] + Cstr(version);
    ReadExpectOf(HEADER, NamesBytes(n) + (ToLe(appId, 2) + (counts + (traits + trailer))));
    NamesRoundTrip(n, ToLe(appId, 2) + (counts + (traits + trailer)));
    ReadU16Of(appId, counts + (traits + trailer));
    CountsAreRead(clients, maxPlayers, bots, traits + trailer);
    TraitsAreRead(ty, os, password, secure, version, trailer);
  }

  /** What the trailer adds to the fixed fields. */
  function FinishWith(x: Info, trailer: bytes): Result<Info, Error> {
    match ReadTrailer(trailer, x.appId)
    case Err(e) => Err(CursorFailed(e))
    case Ok(t) => if t.1 != [] then Err(CursorFailed(ExpectEmpty)) else Ok(x.(extras := t.0.0, appId := t.0.1))
  }

  lemma CountsAreRead(clients: byte, maxPlayers: byte, bots: byte, rest: bytes)
    ensures ParseCounts([clients, maxPlayers, bots] + rest)
         == if clients < bots then Err(InvalidPacket) else Ok((Counts(clients - bots, maxPlayers, bots), rest))
  {
    var s := [clients, maxPlayers, bots] + rest;
    assert s[1..][1..][1..] == rest;
  }

  lemma TraitsAreRead(ty: byte, os: byte, password: byte, secure: byte, version: bytes, rest: bytes)
    requires NUL !in version
    ensures ReadTraits([ty, os, password, secure] + Cstr(version) + rest)
         == Ok((Traits(ServerTypeOf(ty), OsOf(os), password != 0, secure != 0, version), rest))
  {
    var s := [ty, os, password, secure] + Cstr(version) + rest;
    assert s[1..][1..][1..][1..] == Cstr(version) + rest;
    ReadCstrOf(version, rest);
  }

  /** Bytes behind the extras that the flag byte announces are an error; no trailer at all means no extras. */
  lemma TrailerIsExact(x: Info, rest: bytes)
    requires FlagBits(x) != 0 && ExtrasOk(x.extras) && rest != []
    ensures FinishWith(x.(appId := x.appId % 0x1_0000), TrailerBytes(x) + rest) == Err(CursorFailed(ExpectEmpty))
    ensures FinishWith(x, []) == Ok(x.(extras := NO_EXTRAS))
  {
    var e, bits := x.extras, FlagBits(x);
    var r5 := LongAppIdBytes(x) + rest;
    FlagsRoundTrip(x);
    Assoc([bits], ExtrasBytes(x), rest);
    ReadU8Of(bits, ExtrasBytes(x) + rest);
    AllExtrasRead(x, rest);
    if HasLongAppId(x) {
      ReadU64Of(x.appId, rest);
    } else {
      assert [] + rest == rest;
    }
  }

  lemma AllExtrasRead(x: Info, rest: bytes)
    requires ExtrasOk(x.extras)
    ensures ReadExtras(ExtrasBytes(x) + rest, FlagBits(x)) == Ok((x.extras, LongAppIdBytes(x) + rest))
  {
    FlagsRoundTrip(x);
    var e := x.extras;
    var r4 := LongAppIdBytes(x);
    var r3 := KeywordsBytes(e) + r4;
    var r2 := SourceTvBytes(e) + r3;
    var r1 := SteamIdBytes(e) + r2;
    Assoc(PortBytes(e), r1, rest);
    Assoc(SteamIdBytes(e), r2, rest);
    Assoc(SourceTvBytes(e), r3, rest);
    Assoc(KeywordsBytes(e), r4, rest);
    PortRoundTrip(e, r1 + rest);
    SteamIdRoundTrip(e, r2 + rest);
    SourceTvPartRoundTrip(e, r3 + rest);
    KeywordsRoundTrip(e, r4 + rest);
  }

  lemma ReadNamesAreNulFree(s: bytes)
    ensures ReadNames(s).Ok? ==> NamesOk(ReadNames(s).value.0)
  {
  }

  lemma ReadExtrasAreNulFree(s: bytes, bits: byte)
    ensures ReadExtras(s, bits).Ok? ==> ExtrasOk(ReadExtras(s, bits).value.0)
  {
  }

  /** The exact domain of the round trip: names without NUL, and players and bots that fit one byte
      together. */
  lemma RoundTripIffEncodable(x: Info)
    ensures Decode(Encode(x)) == Ok(x) <==> Encodable(x)
  {
    if Encodable(x) {
      DecodeInvertsEncode(x);
    }
    if Decode(Encode(x)) == Ok(x) {
      DecodedIsEncodable(Encode(x));
    }
  }

  lemma ParsedCountsFit(s: bytes)
    ensures ParseCounts(s).Ok? ==> var c := ParseCounts(s).value.0; c.players + c.bots <= 255
  {
  }

  lemma ReadVersionIsNulFree(s: bytes)
    ensures ReadTraits(s).Ok? ==> NUL !in ReadTraits(s).value.0.version
  {
  }

  lemma ReadTrailerIsNulFree(s: bytes, appId: u64)
    ensures ReadTrailer(s, appId).Ok? ==> ExtrasOk(ReadTrailer(s, appId).value.0.0)
  {
    if s != [] {
      ReadExtrasAreNulFree(s[1..], s[0]);
    }
  }

  lemma DecodedBodyIsEncodable(names: Names, s: bytes)
    requires NamesOk(names)
    ensures DecodeBody(names, s).Ok? ==> Encodable(DecodeBody(names, s).value)
  {
    if DecodeBody(names, s).Ok? {
      var (appId, s1) := ReadU16(s).value;
      ParsedCountsFit(s1);
      var s2 := ParseCounts(s1).value.1;
      ReadVersionIsNulFree(s2);
      ReadTrailerIsNulFree(ReadTraits(s2).value.1, appId);
    }
  }

  /** Whatever bytes are decoded, the result is something the format can carry. */
  lemma DecodedIsEncodable(src: bytes)
    ensures Decode(src).Ok? ==> Encodable(Decode(src).value)
  {
    if Decode(src).Ok? {
      var s := ReadExpect(src, HEADER).value.1;
      ReadNamesAreNulFree(s);
      var (names, rest) := ReadNames(s).value;
      DecodedBodyIsEncodable(names, rest);
    }
  }

  // The imperative forms

  method GetNames(cur: Cursor) returns (r: Result<Names, CursorError>)
    requires cur.Valid()
    modifies cur
    ensures cur.Valid()
    ensures match ReadNames(old(cur.Rest()))
            case Ok(p) => r == Ok(p.0) && cur.Rest() == p.1
            case Err(e) => r == Err(e)
  {
    var protocol :- cur.GetU8();
    var host :- cur.GetCstr();
    var map_ :- cur.GetCstr();
    var gamedir :- cur.GetCstr();
    var game :- cur.GetCstr();
    r := Ok(Names(protocol, host, map_, gamedir, game));
  }

  method GetCounts(cur: Cursor) returns (r: Result<Counts, Error>)
    requires cur.Valid()
    modifies cur
    ensures cur.Valid()
    ensures match ParseCounts(old(cur.Rest()))
            case Ok(p) => r == Ok(p.0) && cur.Rest() == p.1
            case Err(e) => r == Err(e)
  {
    var numbers := GetThree(cur);
    if numbers.Err? {
      return Err(CursorFailed(numbers.error));
    }
    var (clients, maxPlayers, bots) := numbers.value;
    r := if clients < bots then Err(InvalidPacket) else Ok(Counts(clients - bots, maxPlayers, bots));
  }

  method GetThree(cur: Cursor) returns (r: Result<(byte, byte, byte), CursorError>)
    requires cur.Valid()
    modifies cur
    ensures cur.Valid()
    ensures if |old(cur.Rest())| < 3 then r == Err(NeedMoreBytes(1))
            else var s := old(cur.Rest()); r == Ok((s[0], s[1], s[2])) && cur.Rest() == s[3..]
  {
    var a :- cur.GetU8();
    var b :- cur.GetU8();
    var c :- cur.GetU8();
    r := Ok((a, b, c));
  }

  method GetTraits(cur: Cursor) returns (r: Result<Traits, CursorError>)
    requires cur.Valid()
    modifies cur
    ensures cur.Valid()
    ensures match ReadTraits(old(cur.Rest()))
            case Ok(p) => r == Ok(p.0) && cur.Rest() == p.1
            case Err(e) => r == Err(e)
  {
    var ty :- cur.GetU8();
    var os :- cur.GetU8();
    var password :- cur.GetU8();
    var secure :- cur.GetU8();
    var version :- cur.GetCstr();
    r := Ok(Traits(ServerTypeOf(ty), OsOf(os), password != 0, secure != 0, version));
  }

  method GetSourceTv(cur: Cursor) returns (r: Result<SourceTv, CursorError>)
    requires cur.Valid()
    modifies cur
    ensures cur.Valid()
    ensures match ReadSourceTv(old(cur.Rest()))
            case Ok(p) => r == Ok(p.0) && cur.Rest() == p.1
            case Err(e) => r == Err(e)
  {
    var port :- cur.GetU16();
    var name :- cur.GetCstr();
    r := Ok(SourceTv(port, name));
  }

  method GetExtras(cur: Cursor, bits: byte) returns (r: Result<Extras, CursorError>)
    requires cur.Valid()
    modifies cur
    ensures cur.Valid()
    ensures match ReadExtras(old(cur.Rest()), bits)
            case Ok(p) => r == Ok(p.0) && cur.Rest() == p.1
            case Err(e) => r == Err(e)
  {
    var e := NO_EXTRAS;
    if HasBit(bits, PORT) {
      var port :- cur.GetU16();
      e := e.(port := Some(port));
    }
    if HasBit(bits, STEAM_ID) {
      var steamId :- cur.GetU64();
      e := e.(steamId := Some(steamId));
    }
    if HasBit(bits, SOURCE_TV) {
      var tv :- GetSourceTv(cur);
      e := e.(sourceTv := Some(tv));
    }
    if HasBit(bits, KEYWORDS) {
      var keywords :- cur.GetCstr();
      e := e.(keywords := Some(keywords));
    }
    r := Ok(e);
  }

  method GetTrailer(cur: Cursor, appId: u64) returns (r: Result<(Extras, u64), CursorError>)
    requires cur.Valid()
    modifies cur
    ensures cur.Valid()
    ensures match ReadTrailer(old(cur.Rest()), appId)
            case Ok(p) => r == Ok(p.0) && cur.Rest() == p.1
            case Err(e) => r == Err(e)
  {
    if cur.pos == |cur.buffer| {
      return Ok((NO_EXTRAS, appId));
    }
    var bits :- cur.GetU8();
    var extras :- GetExtras(cur, bits);
    if HasBit(bits, APP_ID) {
      var id :- cur.GetU64();
      return Ok((extras, id));
    }
    r := Ok((extras, appId));
  }

  /** Everything behind the names. */
  method GetBody(cur: Cursor, names: Names) returns (r: Result<Info, Error>)
    requires cur.Valid()
    modifies cur
    ensures r == DecodeBody(names, old(cur.Rest()))
  {
    var appId := cur.GetU16();
    if appId.Err? {
      return Err(CursorFailed(appId.error));
    }
    var counts :- GetCounts(cur);
    var traits := GetTraits(cur);
    if traits.Err? {
      return Err(CursorFailed(traits.error));
    }
    var trailer := GetTrailer(cur, appId.value);
    if trailer.Err? {
      return Err(CursorFailed(trailer.error));
    }
    if cur.pos < |cur.buffer| {
      return Err(CursorFailed(ExpectEmpty));
    }
    r := Ok(Info(names, trailer.value.1, counts, traits.value, trailer.value.0));
  }

  /** The decoder: a cursor that moves over the packet. */
  method DecodePacket(src: bytes) returns (r: Result<Info, Error>)
    ensures r == Decode(src)
  {
    var cur := new Cursor(src);
    var header := cur.ExpectBytes(HEADER);
    if header.Err? {
      return Err(CursorFailed(header.error));
    }
    var names := GetNames(cur);
    if names.Err? {
      return Err(CursorFailed(names.error));
    }
    r := GetBody(cur, names.value);
  }
}
