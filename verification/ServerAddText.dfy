/** The packet with which a game server registers (ServerAdd in crates/xash3d-protocol/src/net/server.rs). */
module ServerAddText {
  import opened Prelude
  import opened Types
  import opened Numerals
  import opened MapIters
  import opened MapRecords
  import opened VersionText
  import opened Cursors
  import Escape

  const HEADER: bytes := [48, 10]

  datatype Key =
    | ProtocolKey | ChallengeKey | PlayersKey | MaxKey | GamedirKey | ProductKey | MapKey | TypeKey | OsKey
    | VersionKey | RegionKey | BotsKey | PasswordKey | SecureKey | LanKey | NatKey

  function Name(x: Key): bytes {
    match x
    case ProtocolKey => Ascii("protocol")
    case ChallengeKey => Ascii("challenge")
    case PlayersKey => Ascii("players")
    case MaxKey => Ascii("max")
    case GamedirKey => Ascii("gamedir")
    case ProductKey => Ascii("product")
    case MapKey => Ascii("map")
    case TypeKey => Ascii("type")
    case OsKey => Ascii("os")
    case VersionKey => Ascii("version")
    case RegionKey => Ascii("region")
    case BotsKey => Ascii("bots")
    case PasswordKey => Ascii("password")
    case SecureKey => Ascii("secure")
    case LanKey => Ascii("lan")
    case NatKey => Ascii("nat")
  }

  function KeyOf(key: bytes): Option<Key> {
    if key == Ascii("protocol") then Some(ProtocolKey)
    else if key == Ascii("challenge") then Some(ChallengeKey)
    else if key == Ascii("players") then Some(PlayersKey)
    else if key == Ascii("max") then Some(MaxKey)
    else if key == Ascii("gamedir") then Some(GamedirKey)
    else if key == Ascii("product") then Some(ProductKey)
    else if key == Ascii("map") then Some(MapKey)
    else if key == Ascii("type") then Some(TypeKey)
    else if key == Ascii("os") then Some(OsKey)
    else if key == Ascii("version") then Some(VersionKey)
    else if key == Ascii("region") then Some(RegionKey)
    else if key == Ascii("bots") then Some(BotsKey)
    else if key == Ascii("password") then Some(PasswordKey)
    else if key == Ascii("secure") then Some(SecureKey)
    else if key == Ascii("lan") then Some(LanKey)
    else if key == Ascii("nat") then Some(NatKey)
    else None
  }

  /** Length and first two characters tell all names apart. */
  function Tag(key: bytes): (nat, byte, byte)
    requires |key| >= 2
  {
    (|key|, key[0], key[1])
  }

  lemma NameTags()
    ensures Tag(Ascii("protocol")) == (8, 112, 114)
    ensures Tag(Ascii("challenge")) == (9, 99, 104)
    ensures Tag(Ascii("players")) == (7, 112, 108)
    ensures Tag(Ascii("max")) == (3, 109, 97) && Ascii("max")[2] == 120
    ensures Tag(Ascii("gamedir")) == (7, 103, 97)
    ensures Tag(Ascii("product")) == (7, 112, 114)
    ensures Tag(Ascii("map")) == (3, 109, 97) && Ascii("map")[2] == 112
    ensures Tag(Ascii("type")) == (4, 116, 121)
    ensures Tag(Ascii("os")) == (2, 111, 115)
    ensures Tag(Ascii("version")) == (7, 118, 101)
    ensures Tag(Ascii("region")) == (6, 114, 101)
    ensures Tag(Ascii("bots")) == (4, 98, 111)
    ensures Tag(Ascii("password")) == (8, 112, 97)
    ensures Tag(Ascii("secure")) == (6, 115, 101)
    ensures Tag(Ascii("lan")) == (3, 108, 97)
    ensures Tag(Ascii("nat")) == (3, 110, 97)
  {
  }

  lemma KeyOfName(x: Key)
    ensures KeyOf(Name(x)) == Some(x)
  {
    NameTags();
  }

  /** A one-character value names a type or a system; every other value means unknown. */
  function ParseType(v: bytes): ServerType {
    if |v| == 1 then ServerTypeOf(v[0]) else UnknownType
  }

  function ParseOs(v: bytes): Os {
    if |v| == 1 then OsOf(v[0]) else UnknownOs
  }

  function ParseFlag(a: ServerAdd, flag: ServerFlag, v: bytes): Result<ServerAdd, CursorError> {
    var value :- ParseBool(v);
    Ok(a.(flags := WithFlag(a.flags, flag, value)))
  }

  function ParseRegion(v: bytes): Result<Region, CursorError> {
    var n :- ParseNumber(v, 10, 255);
    RegionOf(n)
  }

  function SetKey(a: ServerAdd, x: Key, v: bytes): Result<ServerAdd, CursorError> {
    match x
    case ProtocolKey =>
      var n :- ParseNumber(v, 10, 255);
      Ok(a.(protocol := n))
    case ChallengeKey =>
      var n :- ParseNumber(v, 10, 0xffff_ffff);
      Ok(a.(challenge := n))
    case PlayersKey =>
      var n :- ParseNumber(v, 10, 255);
      Ok(a.(players := n))
    case MaxKey =>
      var n :- ParseNumber(v, 10, 255);
      Ok(a.(max := n))
    case GamedirKey => Ok(a.(gamedir := v))
    case ProductKey => Ok(a)
    case MapKey => Ok(a.(map_ := v))
    case TypeKey => Ok(a.(serverType := ParseType(v)))
    case OsKey => Ok(a.(os := ParseOs(v)))
    case VersionKey =>
      var version := ParseVersion(v);
      Ok(a.(version := if version.Ok? then version.value else Version(0, 0, 0)))
    case RegionKey =>
      var region :- ParseRegion(v);
      Ok(a.(region := region))
    case BotsKey =>
      var n :- ParseNumber(v, 10, 255);
      Ok(a.(bots := n, flags := WithFlag(a.flags, SfBots, n != 0)))
    case PasswordKey => ParseFlag(a, SfPassword, v)
    case SecureKey => ParseFlag(a, SfSecure, v)
    case LanKey => ParseFlag(a, SfLan, v)
    case NatKey => ParseFlag(a, SfNat, v)
  }

  /** The loop's state: the record so far and whether a challenge was seen. */
  datatype Draft = Draft(add: ServerAdd, hasChallenge: bool)

  const DEFAULT :=
    ServerAdd([], [], Version(0, 0, 0), 0, UnknownType, UnknownOs, RestOfTheWorld, 0, 0, 0, 0, {})

  const EMPTY_DRAFT := Draft(DEFAULT, false)

  /** Unknown keys are skipped. */
  function DraftSet(d: Draft, key: bytes, v: bytes): Result<Draft, CursorError> {
    match KeyOf(key)
    case None => Ok(d)
    case Some(x) =>
      var add :- SetKey(d.add, x, v);
      Ok(Draft(add, d.hasChallenge || x == ChallengeKey))
  }

  function DraftError(e: Failure): Error {
    match e
    case BadMap => InvalidMap
    case BadValue(key, error) => InvalidServerValue(key, error)
  }

  function Finish(d: Result<Draft, Failure>): Result<ServerAdd, Error> {
    match d
    case Err(e) => Err(DraftError(e))
    case Ok(d) => if d.hasChallenge then Ok(d.add) else Err(InvalidServerValue(Name(ChallengeKey), Expect))
  }

  /** The info string behind the header: it ends at the first newline, which must be the last byte, or at
      the end of the packet. */
  function InfoString(s: bytes): Result<bytes, Error> {
    var i := FindFrom2(s, NEWLINE, NUL, 0);
    if i == |s| then Ok(s)
    else if s[i] != NEWLINE then Err(InvalidPacket)
    else if i + 1 < |s| then Err(CursorFailed(ExpectEmpty))
    else Ok(s[..i])
  }

  function StripBackslash(info: bytes): Result<bytes, Error> {
    if info == [] then Ok([]) else if info[0] == BACKSLASH then Ok(info[1..]) else Err(InvalidMap)
  }

  /** The `\key\value` body of a packet. */
  function Body(src: bytes): Result<bytes, Error> {
    match ReadExpect(src, HEADER)
    case Err(e) => Err(CursorFailed(e))
    case Ok(r) =>
      var info :- InfoString(r.1);
      StripBackslash(info)
  }

  function DecodeAdd(src: bytes): Result<ServerAdd, Error> {
    var body :- Body(src);
    Finish(Decode(EMPTY_DRAFT, body, DraftSet))
  }

  /** The decoder: a cursor over the packet, then a map iterator over its body. */
  method DecodePacket(src: bytes) returns (r: Result<ServerAdd, Error>)
    ensures r == DecodeAdd(src)
  {
    var body :- GetBody(src);
    var iter := new MapIter(body);
    var d := EMPTY_DRAFT;
    while iter.bytes_ != []
      invariant Decode(d, iter.bytes_, DraftSet) == Decode(EMPTY_DRAFT, body, DraftSet)
      decreases |iter.bytes_|
    {
      var item := iter.Next();
      if item.value.Err? {
        return Err(InvalidMap);
      }
      var pair := item.value.value;
      match DraftSet(d, pair.key, pair.value)
      case Ok(d') => d := d';
      case Err(e) => return Err(InvalidServerValue(pair.key, e));
    }
    r := if d.hasChallenge then Ok(d.add) else Err(InvalidServerValue(Name(ChallengeKey), Expect));
  }

  method GetInfo(cur: Cursor) returns (r: Result<bytes, Error>)
    requires cur.Valid()
    modifies cur
    ensures r == InfoString(old(cur.Rest()))
  {
    var taken := cur.TakeUntil2(NEWLINE, NUL);
    if taken.Err? {
      return Ok(cur.buffer[cur.pos..]);
    }
    var c := cur.GetU8();
    if c != Ok(NEWLINE) {
      return Err(InvalidPacket);
    }
    r := if cur.pos < |cur.buffer| then Err(CursorFailed(ExpectEmpty)) else Ok(taken.value);
  }

  method GetBody(src: bytes) returns (r: Result<bytes, Error>)
    ensures r == Body(src)
  {
    var cur := new Cursor(src);
    var header := cur.ExpectBytes(HEADER);
    if header.Err? {
      return Err(CursorFailed(header.error));
    }
    var info :- GetInfo(cur);
    r := StripBackslash(info);
  }

  // Encoding

  const PRINT_ORDER: seq<Key> :=
    [ProtocolKey, ChallengeKey, PlayersKey, MaxKey, GamedirKey, MapKey, TypeKey, OsKey, VersionKey, RegionKey,
     BotsKey, PasswordKey, SecureKey, LanKey, NatKey]

  /** Unknown types and systems are written as a question mark. */
  function CharText(b: byte): bytes {
    if b == 0 then [63] else [b]
  }

  function KeyText(a: ServerAdd, x: Key): bytes {
    match x
    case ProtocolKey => Print(a.protocol, 10)
    case ChallengeKey => Print(a.challenge, 10)
    case PlayersKey => Print(a.players, 10)
    case MaxKey => Print(a.max, 10)
    case GamedirKey => a.gamedir
    case ProductKey => []
    case MapKey => a.map_
    case TypeKey => CharText(ServerTypeByte(a.serverType))
    case OsKey => CharText(OsByte(a.os))
    case VersionKey => PrintVersion(a.version)
    case RegionKey => Print(RegionByte(a.region), 10)
    case BotsKey => Print(a.bots, 10)
    case PasswordKey => BoolText(SfPassword in a.flags)
    case SecureKey => BoolText(SfSecure in a.flags)
    case LanKey => BoolText(SfLan in a.flags)
    case NatKey => BoolText(SfNat in a.flags)
  }

  function PairsOf(a: ServerAdd, xs: seq<Key>): seq<Pair> {
    if xs == [] then [] else [Pair(Name(xs[0]), KeyText(a, xs[0]))] + PairsOf(a, xs[1..])
  }

  function EncodeAdd(a: ServerAdd): bytes {
    HEADER + (Serialize(PairsOf(a, PRINT_ORDER)) + [NEWLINE])
  }

  // Round trip

  predicate IsPlain(s: bytes) {
    IsMapStr(s) && NEWLINE !in s
  }

  /** What the packet can carry. */
  predicate Encodable(a: ServerAdd) {
    IsPlain(a.gamedir) && IsPlain(a.map_) && (SfBots in a.flags <==> a.bots != 0)
  }

  function FlagKey(f: ServerFlag): Key {
    match f
    case SfBots => BotsKey
    case SfPassword => PasswordKey
    case SfSecure => SecureKey
    case SfLan => LanKey
    case SfNat => NatKey
  }

  function FlagPart(flags: set<ServerFlag>, xs: set<Key>): set<ServerFlag> {
    set f | f in flags && FlagKey(f) in xs
  }

  /** The part of a record that the keys in `xs` carry. */
  function Part(a: ServerAdd, xs: set<Key>): ServerAdd {
    ServerAdd(
      if GamedirKey in xs then a.gamedir else [], if MapKey in xs then a.map_ else [],
      if VersionKey in xs then a.version else Version(0, 0, 0), if ChallengeKey in xs then a.challenge else 0,
      if TypeKey in xs then a.serverType else UnknownType, if OsKey in xs then a.os else UnknownOs,
      if RegionKey in xs then a.region else RestOfTheWorld, if ProtocolKey in xs then a.protocol else 0,
      if PlayersKey in xs then a.players else 0, if MaxKey in xs then a.max else 0,
      if BotsKey in xs then a.bots else 0, FlagPart(a.flags, xs))
  }

  function DraftPart(a: ServerAdd, xs: set<Key>): Draft {
    Draft(Part(a, xs), ChallengeKey in xs)
  }

  lemma OtherFlags(flags: set<ServerFlag>, xs: set<Key>, x: Key)
    requires forall f :: FlagKey(f) != x
    ensures FlagPart(flags, xs + {x}) == FlagPart(flags, xs)
  {
  }

  lemma SetFlagPart(flags: set<ServerFlag>, xs: set<Key>, f: ServerFlag)
    ensures WithFlag(FlagPart(flags, xs), f, f in flags) == FlagPart(flags, xs + {FlagKey(f)})
  {
  }

  lemma FlagRoundTrip(a: ServerAdd, xs: set<Key>, f: ServerFlag)
    requires f != SfBots
    ensures SetKey(Part(a, xs), FlagKey(f), KeyText(a, FlagKey(f))) == Ok(Part(a, xs + {FlagKey(f)}))
  {
    SetFlagPart(a.flags, xs, f);
    assert KeyText(a, FlagKey(f)) == BoolText(f in a.flags);
  }

  lemma NumberRoundTrip(a: ServerAdd, xs: set<Key>, x: Key)
    requires x in {ProtocolKey, ChallengeKey, PlayersKey, MaxKey}
    ensures SetKey(Part(a, xs), x, KeyText(a, x)) == Ok(Part(a, xs + {x}))
  {
    OtherFlags(a.flags, xs, x);
    match x
    case ProtocolKey => ParseInvertsPrint(a.protocol, 10, 255);
    case ChallengeKey => ParseInvertsPrint(a.challenge, 10, 0xffff_ffff);
    case PlayersKey => ParseInvertsPrint(a.players, 10, 255);
    case MaxKey => ParseInvertsPrint(a.max, 10, 255);
  }

  lemma RegionRoundTrip(region: Region)
    ensures ParseRegion(Print(RegionByte(region), 10)) == Ok(region)
  {
    ParseInvertsPrint(RegionByte(region), 10, 255);
  }

  lemma KindRoundTrip(ty: ServerType, os: Os)
    ensures ParseType(CharText(ServerTypeByte(ty))) == ty && ParseOs(CharText(OsByte(os))) == os
  {
  }

  lemma OtherRoundTrip(a: ServerAdd, xs: set<Key>, x: Key)
    requires x in {GamedirKey, MapKey, TypeKey, OsKey, VersionKey, RegionKey}
    ensures SetKey(Part(a, xs), x, KeyText(a, x)) == Ok(Part(a, xs + {x}))
  {
    OtherFlags(a.flags, xs, x);
    match x
    case VersionKey => ParseInvertsPrintVersion(a.version);
    case RegionKey => RegionRoundTrip(a.region);
    case _ => KindRoundTrip(a.serverType, a.os);
  }

  lemma BotsRoundTrip(a: ServerAdd, xs: set<Key>)
    requires Encodable(a)
    ensures SetKey(Part(a, xs), BotsKey, KeyText(a, BotsKey)) == Ok(Part(a, xs + {BotsKey}))
  {
    ParseInvertsPrint(a.bots, 10, 255);
    SetFlagPart(a.flags, xs, SfBots);
  }

  /** Reading back what was written for a key sets that key's part of the record. */
  lemma KeyRoundTrip(a: ServerAdd, xs: set<Key>, x: Key)
    requires Encodable(a) && x != ProductKey
    ensures SetKey(Part(a, xs), x, KeyText(a, x)) == Ok(Part(a, xs + {x}))
  {
    match x
    case PasswordKey => FlagRoundTrip(a, xs, SfPassword);
    case SecureKey => FlagRoundTrip(a, xs, SfSecure);
    case LanKey => FlagRoundTrip(a, xs, SfLan);
    case NatKey => FlagRoundTrip(a, xs, SfNat);
    case BotsKey => BotsRoundTrip(a, xs);
    case GamedirKey | MapKey | TypeKey | OsKey | VersionKey | RegionKey => OtherRoundTrip(a, xs, x);
    case _ => NumberRoundTrip(a, xs, x);
  }

  lemma {:induction false} KeysRoundTrip(a: ServerAdd, done: set<Key>, xs: seq<Key>)
    requires Encodable(a) && ProductKey !in xs
    ensures SetAll(DraftPart(a, done), PairsOf(a, xs), DraftSet) == Ok(DraftPart(a, done + set x | x in xs))
    decreases |xs|
  {
    if xs == [] {
      assert done + (set x | x in xs) == done;
    } else {
      KeyOfName(xs[0]);
      KeyRoundTrip(a, done, xs[0]);
      KeysRoundTrip(a, done + {xs[0]}, xs[1..]);
      assert done + {xs[0]} + (set x | x in xs[1..]) == done + set x | x in xs;
    }
  }

  lemma AllKeysAreWritten(x: Key)
    requires x != ProductKey
    ensures x in PRINT_ORDER
  {
    var i :=
      match x
      case ProtocolKey => 0 case ChallengeKey => 1 case PlayersKey => 2 case MaxKey => 3 case GamedirKey => 4
      case MapKey => 5 case TypeKey => 6 case OsKey => 7 case VersionKey => 8 case RegionKey => 9
      case BotsKey => 10 case PasswordKey => 11 case SecureKey => 12 case LanKey => 13 case _ => 14;
    assert PRINT_ORDER[i] == x;
  }

  lemma WholePart(a: ServerAdd, xs: set<Key>)
    requires forall x: Key {:trigger x in xs} :: x != ProductKey ==> x in xs
    ensures DraftPart(a, xs) == Draft(a, true) && DraftPart(a, {}) == EMPTY_DRAFT
  {
    assert FlagPart(a.flags, xs) == a.flags;
  }

  lemma AllPairsRoundTrip(a: ServerAdd)
    requires Encodable(a)
    ensures SetAll(EMPTY_DRAFT, PairsOf(a, PRINT_ORDER), DraftSet) == Ok(Draft(a, true))
  {
    KeysRoundTrip(a, {}, PRINT_ORDER);
    var xs := {} + set x | x in PRINT_ORDER;
    forall x: Key {:trigger x in xs} | x != ProductKey
      ensures x in xs
    {
      AllKeysAreWritten(x);
    }
    WholePart(a, xs);
  }

  lemma NamesArePlain(x: Key)
    ensures Escape.AllPrintable(Name(x))
  {
    match x
    case ProtocolKey => Escape.LowerIsPlain("protocol");
    case ChallengeKey => Escape.LowerIsPlain("challenge");
    case PlayersKey => Escape.LowerIsPlain("players");
    case MaxKey => Escape.LowerIsPlain("max");
    case GamedirKey => Escape.LowerIsPlain("gamedir");
    case ProductKey => Escape.LowerIsPlain("product");
    case MapKey => Escape.LowerIsPlain("map");
    case TypeKey => Escape.LowerIsPlain("type");
    case OsKey => Escape.LowerIsPlain("os");
    case VersionKey => Escape.LowerIsPlain("version");
    case RegionKey => Escape.LowerIsPlain("region");
    case BotsKey => Escape.LowerIsPlain("bots");
    case PasswordKey => Escape.LowerIsPlain("password");
    case SecureKey => Escape.LowerIsPlain("secure");
    case LanKey => Escape.LowerIsPlain("lan");
    case NatKey => Escape.LowerIsPlain("nat");
  }

  lemma NumbersArePlain(n: nat)
    ensures IsPlain(Print(n, 10))
  {
    PrintIsDigits(n, 10);
  }

  lemma VersionsArePlain(v: Version)
    ensures IsPlain(PrintVersion(v))
  {
    NumbersArePlain(v.major);
    NumbersArePlain(v.minor);
    NumbersArePlain(v.patch);
  }

  lemma TextsArePlain(a: ServerAdd, x: Key)
    requires Encodable(a)
    ensures IsPlain(KeyText(a, x))
  {
    match x
    case ProtocolKey => NumbersArePlain(a.protocol);
    case ChallengeKey => NumbersArePlain(a.challenge);
    case PlayersKey => NumbersArePlain(a.players);
    case MaxKey => NumbersArePlain(a.max);
    case VersionKey => VersionsArePlain(a.version);
    case RegionKey => NumbersArePlain(RegionByte(a.region));
    case BotsKey => NumbersArePlain(a.bots);
    case _ =>
  }

  lemma {:induction false} PairsArePlain(a: ServerAdd, xs: seq<Key>)
    requires Encodable(a)
    ensures AllMapStr(PairsOf(a, xs)) && NEWLINE !in Serialize(PairsOf(a, xs))
    decreases |xs|
  {
    if xs != [] {
      PairsArePlain(a, xs[1..]);
      NamesArePlain(xs[0]);
      TextsArePlain(a, xs[0]);
    }
  }

  lemma InfoStringOf(info: bytes)
    requires NEWLINE !in info && NUL !in info
    ensures InfoString(info + [NEWLINE]) == Ok(info) == InfoString(info)
  {
    FindBehind(info, NEWLINE, NUL, [NEWLINE]);
    FindBehind(info, NEWLINE, NUL, []);
    assert info + [] == info;
    assert (info + [NEWLINE])[..|info|] == info;
  }

  /** Main result: everything the packet can carry survives. */
  lemma DecodeInvertsEncode(a: ServerAdd)
    requires Encodable(a)
    ensures DecodeAdd(EncodeAdd(a)) == Ok(a)
  {
    var ps := PairsOf(a, PRINT_ORDER);
    var text := Serialize(ps);
    PairsArePlain(a, PRINT_ORDER);
    SerializedStart(ps);
    PairsOfSerialized(ps);
    ReadExpectOf(HEADER, text + [NEWLINE]);
    InfoStringOf(text);
    DecodeIsSetAll(EMPTY_DRAFT, text[1..], DraftSet);
    AllPairsRoundTrip(a);
  }

  /** Servers that forget the final newline are understood just as well, and rejected for the same reasons. */
  lemma NewlineIsOptional(info: bytes)
    requires NEWLINE !in info && NUL !in info
    ensures DecodeAdd(HEADER + (info + [NEWLINE])) == DecodeAdd(HEADER + info)
  {
    ReadExpectOf(HEADER, info + [NEWLINE]);
    ReadExpectOf(HEADER, info);
    InfoStringOf(info);
  }

  lemma BodyIsClean(src: bytes)
    requires Body(src).Ok?
    ensures NEWLINE !in Body(src).value && NUL !in Body(src).value
  {
  }

  lemma ParsedValuesAreClean(body: bytes)
    requires Pairs(body).Ok? && NEWLINE !in body && NUL !in body
    ensures forall p | p in Pairs(body).value :: IsPlain(p.value)
  {
    if body != [] {
      PairsAreLossless(body);
      forall p | p in Pairs(body).value
        ensures IsPlain(p.value)
      {
        ValuesAreInside(Pairs(body).value, p);
      }
    }
  }

  predicate DraftEncodable(d: Draft) {
    Encodable(d.add)
  }

  lemma SetKeepsEncodable(d: Draft, key: bytes, v: bytes)
    requires DraftEncodable(d) && IsPlain(v) && DraftSet(d, key, v).Ok?
    ensures DraftEncodable(DraftSet(d, key, v).value)
  {
    if KeyOf(key).Some? {
      SetKeyKeepsEncodable(d.add, KeyOf(key).value, v);
    }
  }

  lemma SetKeyKeepsEncodable(a: ServerAdd, x: Key, v: bytes)
    requires Encodable(a) && IsPlain(v) && SetKey(a, x, v).Ok?
    ensures Encodable(SetKey(a, x, v).value)
  {
  }

  lemma DecodedPairs(src: bytes)
    requires DecodeAdd(src).Ok?
    ensures Pairs(Body(src).value).Ok?
    ensures var d := SetAll(EMPTY_DRAFT, Pairs(Body(src).value).value, DraftSet);
            d.Ok? && d.value == Draft(DecodeAdd(src).value, true)
  {
    var body := Body(src).value;
    DecodedHasPairs(EMPTY_DRAFT, body, DraftSet);
    DecodeIsSetAll(EMPTY_DRAFT, body, DraftSet);
  }

  /** Whatever bytes are decoded, the record is one the packet can carry: in particular its texts hold no
      backslash, NUL or newline, and it is flagged as having bots exactly when it has some. */
  lemma DecodedIsEncodable(src: bytes)
    requires DecodeAdd(src).Ok?
    ensures Encodable(DecodeAdd(src).value)
  {
    BodyIsClean(src);
    DecodedPairs(src);
    ParsedValuesAreClean(Body(src).value);
    forall d: Draft, k, v | DraftEncodable(d) && IsPlain(v) && DraftSet(d, k, v).Ok?
      ensures DraftEncodable(DraftSet(d, k, v).value)
    {
      SetKeepsEncodable(d, k, v);
    }
    SetAllPreserves(EMPTY_DRAFT, Pairs(Body(src).value).value, DraftSet, DraftEncodable, IsPlain);
  }

  /** The exact domain of the round trip. */
  lemma RoundTripIffEncodable(a: ServerAdd)
    ensures DecodeAdd(EncodeAdd(a)) == Ok(a) <==> Encodable(a)
  {
    if Encodable(a) {
      DecodeInvertsEncode(a);
    }
    if DecodeAdd(EncodeAdd(a)) == Ok(a) {
      DecodedIsEncodable(EncodeAdd(a));
    }
  }

  // Which packets are accepted

  /** Whether a value is acceptable for a key, whatever the record holds. */
  predicate ValidText(x: Key, v: bytes) {
    match x
    case ProtocolKey | PlayersKey | MaxKey | BotsKey => ParseNumber(v, 10, 255).Ok?
    case ChallengeKey => ParseNumber(v, 10, 0xffff_ffff).Ok?
    case RegionKey => ParseRegion(v).Ok?
    case PasswordKey | SecureKey | LanKey | NatKey => v in {[48], [49]}
    case _ => true
  }

  predicate ValidPair(p: Pair) {
    KeyOf(p.key).Some? ==> ValidText(KeyOf(p.key).value, p.value)
  }

  lemma SetKeySucceedsIffValid(a: ServerAdd, x: Key, v: bytes)
    ensures SetKey(a, x, v).Ok? <==> ValidText(x, v)
  {
  }

  lemma SetSucceedsIffValid(d: Draft, p: Pair)
    ensures DraftSet(d, p.key, p.value).Ok? <==> ValidPair(p)
    ensures ValidPair(p) ==>
              (DraftSet(d, p.key, p.value).value.hasChallenge <==> d.hasChallenge || p.key == Name(ChallengeKey))
  {
    KeyOfName(ChallengeKey);
    match KeyOf(p.key)
    case None =>
    case Some(x) =>
      SetKeySucceedsIffValid(d.add, x, p.value);
      assert x == ChallengeKey <==> p.key == Name(ChallengeKey);
  }

  lemma {:induction false} SetAllSucceedsIffValid(d: Draft, ps: seq<Pair>)
    ensures SetAll(d, ps, DraftSet).Ok? <==> forall p | p in ps :: ValidPair(p)
    ensures SetAll(d, ps, DraftSet).Ok? ==>
              (SetAll(d, ps, DraftSet).value.hasChallenge <==>
               d.hasChallenge || exists p | p in ps :: p.key == Name(ChallengeKey))
    decreases |ps|
  {
    if ps != [] {
      SetSucceedsIffValid(d, ps[0]);
      assert forall p | p in ps :: p == ps[0] || p in ps[1..];
      if ValidPair(ps[0]) {
        SetAllSucceedsIffValid(DraftSet(d, ps[0].key, ps[0].value).value, ps[1..]);
      }
    }
  }

  /** A packet registers a server exactly when its body is a list of pairs, every known key has an acceptable
      value, and one of the keys is the challenge. */
  lemma AcceptedIff(src: bytes)
    ensures DecodeAdd(src).Ok? <==>
      && Body(src).Ok? && Pairs(Body(src).value).Ok?
      && (forall p | p in Pairs(Body(src).value).value :: ValidPair(p))
      && exists p | p in Pairs(Body(src).value).value :: p.key == Name(ChallengeKey)
  {
    if DecodeAdd(src).Ok? {
      DecodedPairs(src);
    }
    if Body(src).Ok? && Pairs(Body(src).value).Ok? {
      DecodeIsSetAll(EMPTY_DRAFT, Body(src).value, DraftSet);
      SetAllSucceedsIffValid(EMPTY_DRAFT, Pairs(Body(src).value).value);
    }
  }
}
