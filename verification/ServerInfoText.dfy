/** A game server's reply to an info request (GetServerInfoResponse in
    crates/xash3d-protocol/src/net/server.rs). */
module ServerInfoText {
  import opened Prelude
  import opened Numerals
  import opened MapIters
  import opened MapRecords
  import opened Cursors
  import Escape

  const HEADER: bytes := [0xff, 0xff, 0xff, 0xff, 105, 110, 102, 111, 10]
  const COLON: byte := 58

  datatype Details = Details(
    gamedir: bytes, map_: bytes, host: bytes, protocol: byte, numcl: byte, maxcl: byte,
    dm: bool, team: bool, coop: bool, password: bool, dedicated: bool)

  datatype Key =
    | ProtocolKey | MapKey | DmKey | TeamKey | CoopKey | NumclKey | MaxclKey | GamedirKey | PasswordKey
    | DedicatedKey | HostKey

  function Name(x: Key): bytes {
    match x
    case ProtocolKey => Ascii("p")
    case MapKey => Ascii("map")
    case DmKey => Ascii("dm")
    case TeamKey => Ascii("team")
    case CoopKey => Ascii("coop")
    case NumclKey => Ascii("numcl")
    case MaxclKey => Ascii("maxcl")
    case GamedirKey => Ascii("gamedir")
    case PasswordKey => Ascii("password")
    case DedicatedKey => Ascii("dedicated")
    case HostKey => Ascii("host")
  }

  function KeyOf(key: bytes): Option<Key> {
    if key == Ascii("p") then Some(ProtocolKey)
    else if key == Ascii("map") then Some(MapKey)
    else if key == Ascii("dm") then Some(DmKey)
    else if key == Ascii("team") then Some(TeamKey)
    else if key == Ascii("coop") then Some(CoopKey)
    else if key == Ascii("numcl") then Some(NumclKey)
    else if key == Ascii("maxcl") then Some(MaxclKey)
    else if key == Ascii("gamedir") then Some(GamedirKey)
    else if key == Ascii("password") then Some(PasswordKey)
    else if key == Ascii("host") then Some(HostKey)
    else if key == Ascii("dedicated") then Some(DedicatedKey)
    else None
  }

  /** Length and first character tell all names apart. */
  function Tag(key: bytes): (nat, byte)
    requires key != []
  {
    (|key|, key[0])
  }

  lemma NameTags()
    ensures Tag(Ascii("p")) == (1, 112) && Tag(Ascii("dm")) == (2, 100) && Tag(Ascii("map")) == (3, 109)
    ensures Tag(Ascii("team")) == (4, 116) && Tag(Ascii("coop")) == (4, 99) && Tag(Ascii("host")) == (4, 104)
    ensures Tag(Ascii("numcl")) == (5, 110) && Tag(Ascii("maxcl")) == (5, 109)
    ensures Tag(Ascii("gamedir")) == (7, 103) && Tag(Ascii("password")) == (8, 112)
    ensures Tag(Ascii("dedicated")) == (9, 100)
  {
  }

  lemma KeyOfName(x: Key)
    ensures KeyOf(Name(x)) == Some(x)
  {
    NameTags();
  }

  function SetKey(d: Details, x: Key, v: bytes): Result<Details, CursorError> {
    match x
    case ProtocolKey =>
      var n :- ParseNumber(v, 10, 255);
      Ok(d.(protocol := n))
    case NumclKey =>
      var n :- ParseNumber(v, 10, 255);
      Ok(d.(numcl := n))
    case MaxclKey =>
      var n :- ParseNumber(v, 10, 255);
      Ok(d.(maxcl := n))
    case DmKey =>
      var b :- ParseBool(v);
      Ok(d.(dm := b))
    case TeamKey =>
      var b :- ParseBool(v);
      Ok(d.(team := b))
    case CoopKey =>
      var b :- ParseBool(v);
      Ok(d.(coop := b))
    case PasswordKey =>
      var b :- ParseBool(v);
      Ok(d.(password := b))
    case DedicatedKey =>
      var b :- ParseBool(v);
      Ok(d.(dedicated := b))
    case MapKey => Ok(d.(map_ := v))
    case GamedirKey => Ok(d.(gamedir := v))
    case HostKey => Ok(d.(host := v))
  }

  const DEFAULT := Details([], [], [], 0, 0, 0, false, false, false, false, false)

  /** Unknown keys are skipped. */
  function DetailsSet(d: Details, key: bytes, v: bytes): Result<Details, CursorError> {
    match KeyOf(key)
    case None => Ok(d)
    case Some(x) => SetKey(d, x, v)
  }

  /** What is behind the last colon. */
  function AfterLastColon(s: bytes): Option<bytes> {
    if s == [] then None
    else match AfterLastColon(s[1..])
      case Some(t) => Some(t)
      case None => if s[0] == COLON then Some(s[1..]) else None
  }

  /** A reply that is not a map is a message; one of them says that the protocol version is wrong. */
  function MessageError(s: bytes): Error {
    if AfterLastColon(s) == Some(Ascii(" wrong version\n")) then InvalidProtocolVersion else InvalidPacket
  }

  function Finish(d: Result<Details, Failure>): Result<Details, Error> {
    match d
    case Ok(d) => Ok(d)
    case Err(BadMap) => Err(InvalidMap)
    case Err(BadValue(key, e)) => Err(InvalidServerValue(key, e))
  }

  /** The `\key\value` body of a reply. */
  function Body(src: bytes): Result<bytes, Error> {
    match ReadExpect(src, HEADER)
    case Err(e) => Err(CursorFailed(e))
    case Ok(r) =>
      var s := r.1;
      if s == [] || s[0] != BACKSLASH then Err(MessageError(s)) else
      match TextToEnd(s)
      case Err(e) => Err(CursorFailed(e))
      case Ok(info) => if info == [] then Ok([]) else if info[0] == BACKSLASH then Ok(info[1..]) else Err(InvalidMap)
  }

  function DecodeInfo(src: bytes): Result<Details, Error> {
    var body :- Body(src);
    Finish(Decode(DEFAULT, body, DetailsSet))
  }

  /** The message behind the last colon, looked for from the end. */
  method FindMessage(s: bytes) returns (message: Option<bytes>)
    ensures message == AfterLastColon(s)
  {
    var i := |s|;
    assert s[i..] == [];
    while i > 0
      invariant i <= |s| && AfterLastColon(s[i..]) == None
    {
      i := i - 1;
      assert s[i..][1..] == s[i + 1..];
      if s[i] == COLON {
        EarlierColonsDoNotCount(s, i);
        return Some(s[i + 1..]);
      }
    }
    assert s[0..] == s;
    message := None;
  }

  lemma {:induction false} EarlierColonsDoNotCount(s: bytes, i: nat)
    requires i < |s| && AfterLastColon(s[i..]).Some?
    ensures AfterLastColon(s) == AfterLastColon(s[i..])
  {
    if i == 0 {
      assert s[0..] == s;
    } else {
      assert s[1..][i - 1..] == s[i..];
      EarlierColonsDoNotCount(s[1..], i - 1);
    }
  }

  predicate EndsWith(s: bytes, t: bytes) {
    |t| <= |s| && s[|s| - |t|..] == t
  }

  /** What the search finds: nothing without a colon, otherwise a text without colons behind one. */
  lemma {:induction false} AfterLastColonIff(s: bytes, t: bytes)
    requires COLON !in t
    ensures AfterLastColon(s) == Some(t) <==> EndsWith(s, [COLON] + t)
  {
    if s != [] {
      AfterLastColonIff(s[1..], t);
      var n := |s| - |t| - 1;
      if n > 0 {
        assert s[1..][n - 1..] == s[n..];
      } else if n == 0 {
        assert s[0..] == [s[0]] + s[1..];
        assert s[1..] == t ==> COLON !in s[1..];
      }
      NothingBehindAColon(s[1..]);
    }
  }

  lemma {:induction false} NothingBehindAColon(s: bytes)
    ensures AfterLastColon(s).None? <==> COLON !in s
    ensures AfterLastColon(s).Some? ==> |AfterLastColon(s).value| < |s|
  {
    if s != [] {
      NothingBehindAColon(s[1..]);
    }
  }

  lemma WrongVersionText()
    ensures Ascii(": wrong version\n") == [COLON] + Ascii(" wrong version\n")
    ensures COLON !in Ascii(" wrong version\n")
  {
    var t := " wrong version\n";
    assert forall i | 0 <= i < |t| :: t[i] != ':' && (t[i] as int) < 128;
  }

  /** A reply that does not start with a backslash is an error: the server rejects the protocol version exactly
      when the reply ends with `: wrong version` and a newline. */
  lemma MessageIsRejection(t: bytes)
    requires t == [] || t[0] != BACKSLASH
    ensures DecodeInfo(HEADER + t)
         == Err(if EndsWith(t, Ascii(": wrong version\n")) then InvalidProtocolVersion else InvalidPacket)
  {
    WrongVersionText();
    AfterLastColonIff(t, Ascii(" wrong version\n"));
    ReadExpectOf(HEADER, t);
  }

  /** No other bytes are read as a rejection of the protocol version. */
  lemma RejectedIff(src: bytes)
    ensures DecodeInfo(src) == Err(InvalidProtocolVersion) <==>
              && HEADER <= src && !([BACKSLASH] <= src[|HEADER|..])
              && EndsWith(src[|HEADER|..], Ascii(": wrong version\n"))
  {
    if HEADER <= src {
      assert src == HEADER + src[|HEADER|..];
      if !([BACKSLASH] <= src[|HEADER|..]) {
        MessageIsRejection(src[|HEADER|..]);
      }
    }
  }

  method GetBody(src: bytes) returns (r: Result<bytes, Error>)
    ensures r == Body(src)
  {
    var cur := new Cursor(src);
    var header := cur.ExpectBytes(HEADER);
    if header.Err? {
      return Err(CursorFailed(header.error));
    }
    var s := cur.buffer[cur.pos..];
    if s == [] || s[0] != BACKSLASH {
      var message := FindMessage(s);
      return Err(if message == Some(Ascii(" wrong version\n")) then InvalidProtocolVersion else InvalidPacket);
    }
    var info := cur.GetTextToEnd();
    match info
    case Err(e) => r := Err(CursorFailed(e));
    case Ok(i) => r := if i == [] then Ok([]) else if i[0] == BACKSLASH then Ok(i[1..]) else Err(InvalidMap);
  }

  /** The decoder: a cursor over the packet, then a map iterator over its body. */
  method DecodePacket(src: bytes) returns (r: Result<Details, Error>)
    ensures r == DecodeInfo(src)
  {
    var body :- GetBody(src);
    var iter := new MapIter(body);
    var d := DEFAULT;
    while iter.bytes_ != []
      invariant Decode(d, iter.bytes_, DetailsSet) == Decode(DEFAULT, body, DetailsSet)
      decreases |iter.bytes_|
    {
      var item := iter.Next();
      if item.value.Err? {
        return Err(InvalidMap);
      }
      var pair := item.value.value;
      match DetailsSet(d, pair.key, pair.value)
      case Ok(d') => d := d';
      case Err(e) => return Err(InvalidServerValue(pair.key, e));
    }
    r := Ok(d);
  }

  // Encoding

  const PRINT_ORDER: seq<Key> :=
    [ProtocolKey, MapKey, DmKey, TeamKey, CoopKey, NumclKey, MaxclKey, GamedirKey, PasswordKey, DedicatedKey, HostKey]

  function KeyText(d: Details, x: Key): bytes {
    match x
    case ProtocolKey => Print(d.protocol, 10)
    case MapKey => d.map_
    case DmKey => BoolText(d.dm)
    case TeamKey => BoolText(d.team)
    case CoopKey => BoolText(d.coop)
    case NumclKey => Print(d.numcl, 10)
    case MaxclKey => Print(d.maxcl, 10)
    case GamedirKey => d.gamedir
    case PasswordKey => BoolText(d.password)
    case DedicatedKey => BoolText(d.dedicated)
    case HostKey => d.host
  }

  function PairsOf(d: Details, xs: seq<Key>): seq<Pair> {
    if xs == [] then [] else [Pair(Name(xs[0]), KeyText(d, xs[0]))] + PairsOf(d, xs[1..])
  }

  function EncodeInfo(d: Details): bytes {
    HEADER + Serialize(PairsOf(d, PRINT_ORDER))
  }

  // Round trip

  /** What the reply can carry. */
  predicate Encodable(d: Details) {
    IsMapStr(d.gamedir) && IsMapStr(d.map_) && IsMapStr(d.host)
  }

  /** The part of a record that the keys in `xs` carry. */
  function Part(d: Details, xs: set<Key>): Details {
    Details(
      if GamedirKey in xs then d.gamedir else [], if MapKey in xs then d.map_ else [],
      if HostKey in xs then d.host else [], if ProtocolKey in xs then d.protocol else 0,
      if NumclKey in xs then d.numcl else 0, if MaxclKey in xs then d.maxcl else 0,
      DmKey in xs && d.dm, TeamKey in xs && d.team, CoopKey in xs && d.coop,
      PasswordKey in xs && d.password, DedicatedKey in xs && d.dedicated)
  }

  /** Reading back what was written for a key sets that key's part of the record. */
  lemma KeyRoundTrip(d: Details, xs: set<Key>, x: Key)
    ensures SetKey(Part(d, xs), x, KeyText(d, x)) == Ok(Part(d, xs + {x}))
  {
    match x
    case ProtocolKey => ParseInvertsPrint(d.protocol, 10, 255);
    case NumclKey => ParseInvertsPrint(d.numcl, 10, 255);
    case MaxclKey => ParseInvertsPrint(d.maxcl, 10, 255);
    case _ =>
  }

  lemma {:induction false} KeysRoundTrip(d: Details, done: set<Key>, xs: seq<Key>)
    ensures SetAll(Part(d, done), PairsOf(d, xs), DetailsSet) == Ok(Part(d, done + set x | x in xs))
    decreases |xs|
  {
    if xs == [] {
      assert done + (set x | x in xs) == done;
    } else {
      KeyOfName(xs[0]);
      KeyRoundTrip(d, done, xs[0]);
      KeysRoundTrip(d, done + {xs[0]}, xs[1..]);
      assert done + {xs[0]} + (set x | x in xs[1..]) == done + set x | x in xs;
    }
  }

  lemma AllKeysAreWritten(x: Key)
    ensures x in PRINT_ORDER
  {
    var i :=
      match x
      case ProtocolKey => 0 case MapKey => 1 case DmKey => 2 case TeamKey => 3 case CoopKey => 4 case NumclKey => 5
      case MaxclKey => 6 case GamedirKey => 7 case PasswordKey => 8 case DedicatedKey => 9 case HostKey => 10;
    assert PRINT_ORDER[i] == x;
  }

  lemma NamesArePlain(x: Key)
    ensures Escape.AllPrintable(Name(x))
  {
    match x
    case ProtocolKey => Escape.LowerIsPlain("p");
    case MapKey => Escape.LowerIsPlain("map");
    case DmKey => Escape.LowerIsPlain("dm");
    case TeamKey => Escape.LowerIsPlain("team");
    case CoopKey => Escape.LowerIsPlain("coop");
    case NumclKey => Escape.LowerIsPlain("numcl");
    case MaxclKey => Escape.LowerIsPlain("maxcl");
    case GamedirKey => Escape.LowerIsPlain("gamedir");
    case PasswordKey => Escape.LowerIsPlain("password");
    case DedicatedKey => Escape.LowerIsPlain("dedicated");
    case HostKey => Escape.LowerIsPlain("host");
  }

  lemma TextsAreMapStr(d: Details, x: Key)
    requires Encodable(d)
    ensures IsMapStr(KeyText(d, x))
  {
    match x
    case ProtocolKey => PrintIsDigits(d.protocol, 10);
    case NumclKey => PrintIsDigits(d.numcl, 10);
    case MaxclKey => PrintIsDigits(d.maxcl, 10);
    case _ =>
  }

  lemma {:induction false} PairsAreMapStr(d: Details, xs: seq<Key>)
    requires Encodable(d)
    ensures AllMapStr(PairsOf(d, xs))
    decreases |xs|
  {
    if xs != [] {
      PairsAreMapStr(d, xs[1..]);
      NamesArePlain(xs[0]);
      TextsAreMapStr(d, xs[0]);
    }
  }

  lemma AllPairsRoundTrip(d: Details)
    ensures SetAll(DEFAULT, PairsOf(d, PRINT_ORDER), DetailsSet) == Ok(d)
  {
    KeysRoundTrip(d, {}, PRINT_ORDER);
    var xs := {} + set x | x in PRINT_ORDER;
    forall x: Key {:trigger x in xs}
      ensures x in xs
    {
      AllKeysAreWritten(x);
    }
    assert Part(d, xs) == d && Part(d, {}) == DEFAULT;
  }

  /** The body of a map with or without its trailing NUL. */
  lemma BodyOf(info: bytes)
    requires info != [] && info[0] == BACKSLASH && NUL !in info
    ensures Body(HEADER + info) == Ok(info[1..]) == Body(HEADER + Cstr(info))
  {
    ReadExpectOf(HEADER, info);
    ReadExpectOf(HEADER, Cstr(info));
    TextToEndOf(info);
  }

  lemma DecodeInvertsEncode(d: Details)
    requires Encodable(d)
    ensures DecodeInfo(EncodeInfo(d)) == Ok(d)
  {
    var ps := PairsOf(d, PRINT_ORDER);
    PairsAreMapStr(d, PRINT_ORDER);
    SerializedStart(ps);
    PairsOfSerialized(ps);
    BodyOf(Serialize(ps));
    DecodeIsSetAll(DEFAULT, Serialize(ps)[1..], DetailsSet);
    AllPairsRoundTrip(d);
  }

  /** With or without the trailing NUL a reply is understood the same, and rejected for the same reasons. */
  lemma NulIsOptional(info: bytes)
    requires info != [] && info[0] == BACKSLASH && NUL !in info
    ensures DecodeInfo(HEADER + Cstr(info)) == DecodeInfo(HEADER + info)
  {
    BodyOf(info);
  }

  lemma BodyHasNoNul(src: bytes)
    ensures Body(src).Ok? ==> NUL !in Body(src).value
  {
  }

  lemma SetKeepsEncodable(d: Details, key: bytes, v: bytes)
    requires Encodable(d) && IsMapStr(v) && DetailsSet(d, key, v).Ok?
    ensures Encodable(DetailsSet(d, key, v).value)
  {
    if KeyOf(key).Some? {
      SetKeyKeepsEncodable(d, KeyOf(key).value, v);
    }
  }

  lemma SetKeyKeepsEncodable(d: Details, x: Key, v: bytes)
    requires Encodable(d) && IsMapStr(v) && SetKey(d, x, v).Ok?
    ensures Encodable(SetKey(d, x, v).value)
  {
  }

  lemma BodyValuesAreMapStr(body: bytes)
    requires NUL !in body && Pairs(body).Ok?
    ensures forall p | p in Pairs(body).value :: IsMapStr(p.value)
  {
    if body != [] {
      PairsAreLossless(body);
    }
  }

  /** Whatever bytes are decoded, the texts hold no backslash and no NUL. */
  lemma DecodedIsEncodable(src: bytes)
    ensures DecodeInfo(src).Ok? ==> Encodable(DecodeInfo(src).value)
  {
    if DecodeInfo(src).Ok? {
      var body := Body(src).value;
      BodyHasNoNul(src);
      DecodedHasPairs(DEFAULT, body, DetailsSet);
      DecodeIsSetAll(DEFAULT, body, DetailsSet);
      BodyValuesAreMapStr(body);
      forall d: Details, k, v | Encodable(d) && IsMapStr(v) && DetailsSet(d, k, v).Ok?
        ensures Encodable(DetailsSet(d, k, v).value)
      {
        SetKeepsEncodable(d, k, v);
      }
      SetAllPreserves(DEFAULT, Pairs(body).value, DetailsSet, Encodable, IsMapStr);
    }
  }

  /** The exact domain of the round trip. */
  lemma RoundTripIffEncodable(d: Details)
    ensures DecodeInfo(EncodeInfo(d)) == Ok(d) <==> Encodable(d)
  {
    if Encodable(d) {
      DecodeInvertsEncode(d);
    }
    DecodedIsEncodable(EncodeInfo(d));
  }
}
