/** What each key of a registration means, whatever the order of the pairs and however often a key comes
    (ServerAdd in crates/xash3d-protocol/src/net/server.rs). */
module ServerAddFields {
  import opened Prelude
  import opened Types
  import opened Utf8
  import opened Numerals
  import opened VersionText
  import opened MapIters
  import opened MapRecords
  import opened ServerAddText
  import Cursors

  /** A value, or nothing. */
  function Text(v: Option<bytes>): bytes {
    if v.Some? then v.value else []
  }

  /** The number of a value, or 0. */
  function Number(v: Option<bytes>, max: nat): nat {
    if v.None? then 0 else
    var n := ParseNumber(v.value, 10, max);
    if n.Ok? then n.value else 0
  }

  /** Types and systems are letters. */
  predicate TypeIs(ty: ServerType, v: Option<bytes>) {
    && (ty == Dedicated <==> v == Some(['d' as int])) && (ty == Local <==> v == Some(['l' as int]))
    && (ty == Proxy <==> v == Some(['p' as int]))
  }

  predicate OsIs(os: Os, v: Option<bytes>) {
    && (os == Linux <==> v == Some(['l' as int])) && (os == Windows <==> v == Some(['w' as int]))
    && (os == Mac <==> v == Some(['m' as int]))
  }

  /** A version that is not one counts as 0.0.0. */
  predicate VersionIs(version: Version, v: Option<bytes>) {
    version == if v.Some? && ParseVersion(v.value).Ok? then ParseVersion(v.value).value else Version(0, 0, 0)
  }

  predicate RegionIs(region: Region, v: Option<bytes>) {
    if v.None? then region == RestOfTheWorld else RegionByte(region) == Number(v, 255)
  }

  /** A flag is set by the text 1; that of bots by their number. */
  predicate FlagIs(flags: set<ServerFlag>, flag: ServerFlag, v: Option<bytes>) {
    flag in flags <==> if flag.SfBots? then Number(v, 255) != 0 else v == Some(['1' as int])
  }

  /** The last value of each known key. */
  function ValuesOf(ps: seq<Pair>): map<Key, bytes> {
    if ps == [] then map[] else
    match KeyOf(Last(ps).key)
    case Some(x) => ValuesOf(Front(ps))[x := Last(ps).value]
    case None => ValuesOf(Front(ps))
  }

  function At(m: map<Key, bytes>, x: Key): Option<bytes> {
    if x in m then Some(m[x]) else None
  }

  lemma NameOfNumber(key: bytes, x: Key)
    requires KeyOf(key) == Some(x) && x in {ProtocolKey, ChallengeKey, PlayersKey, MaxKey, BotsKey}
    ensures Name(x) == key
  {
  }

  lemma NameOfText(key: bytes, x: Key)
    requires KeyOf(key) == Some(x) && x in {GamedirKey, ProductKey, MapKey, TypeKey, OsKey}
    ensures Name(x) == key
  {
  }

  lemma NameOfOther(key: bytes, x: Key)
    requires KeyOf(key) == Some(x)
    requires x in {VersionKey, RegionKey, PasswordKey, SecureKey, LanKey, NatKey}
    ensures Name(x) == key
  {
  }

  lemma NameOfKey(key: bytes, x: Key)
    requires KeyOf(key) == Some(x)
    ensures Name(x) == key
  {
    match x
    case ProtocolKey | ChallengeKey | PlayersKey | MaxKey | BotsKey => NameOfNumber(key, x);
    case GamedirKey | ProductKey | MapKey | TypeKey | OsKey => NameOfText(key, x);
    case _ => NameOfOther(key, x);
  }

  lemma NamesDiffer(x: Key, y: Key)
    ensures Name(x) == Name(y) <==> x == y
  {
    KeyOfName(x);
    KeyOfName(y);
  }

  lemma {:induction false} ValuesAt(ps: seq<Pair>, x: Key)
    ensures At(ValuesOf(ps), x) == LastValue(ps, Name(x))
  {
    if ps != [] {
      ValuesAt(Front(ps), x);
      if KeyOf(Last(ps).key).Some? {
        NameOfKey(Last(ps).key, KeyOf(Last(ps).key).value);
        NamesDiffer(KeyOf(Last(ps).key).value, x);
      } else {
        KeyOfName(x);
      }
    }
  }

  lemma GamedirGiven(ps: seq<Pair>)
    ensures At(ValuesOf(ps), GamedirKey) == LastValue(ps, Ascii("gamedir"))
  {
    ValuesAt(ps, GamedirKey);
  }

  lemma MapGiven(ps: seq<Pair>)
    ensures At(ValuesOf(ps), MapKey) == LastValue(ps, Ascii("map"))
  {
    ValuesAt(ps, MapKey);
  }

  lemma ProtocolGiven(ps: seq<Pair>)
    ensures At(ValuesOf(ps), ProtocolKey) == LastValue(ps, Ascii("protocol"))
  {
    ValuesAt(ps, ProtocolKey);
  }

  lemma ChallengeGiven(ps: seq<Pair>)
    ensures At(ValuesOf(ps), ChallengeKey) == LastValue(ps, Ascii("challenge"))
  {
    ValuesAt(ps, ChallengeKey);
  }

  lemma PlayersGiven(ps: seq<Pair>)
    ensures At(ValuesOf(ps), PlayersKey) == LastValue(ps, Ascii("players"))
  {
    ValuesAt(ps, PlayersKey);
  }

  lemma MaxGiven(ps: seq<Pair>)
    ensures At(ValuesOf(ps), MaxKey) == LastValue(ps, Ascii("max"))
  {
    ValuesAt(ps, MaxKey);
  }

  lemma BotsGiven(ps: seq<Pair>)
    ensures At(ValuesOf(ps), BotsKey) == LastValue(ps, Ascii("bots"))
  {
    ValuesAt(ps, BotsKey);
  }

  lemma TypeGiven(ps: seq<Pair>)
    ensures At(ValuesOf(ps), TypeKey) == LastValue(ps, Ascii("type"))
  {
    ValuesAt(ps, TypeKey);
  }

  lemma OsGiven(ps: seq<Pair>)
    ensures At(ValuesOf(ps), OsKey) == LastValue(ps, Ascii("os"))
  {
    ValuesAt(ps, OsKey);
  }

  lemma VersionGiven(ps: seq<Pair>)
    ensures At(ValuesOf(ps), VersionKey) == LastValue(ps, Ascii("version"))
  {
    ValuesAt(ps, VersionKey);
  }

  lemma RegionGiven(ps: seq<Pair>)
    ensures At(ValuesOf(ps), RegionKey) == LastValue(ps, Ascii("region"))
  {
    ValuesAt(ps, RegionKey);
  }

  lemma PasswordGiven(ps: seq<Pair>)
    ensures At(ValuesOf(ps), PasswordKey) == LastValue(ps, Ascii("password"))
  {
    ValuesAt(ps, PasswordKey);
  }

  lemma SecureGiven(ps: seq<Pair>)
    ensures At(ValuesOf(ps), SecureKey) == LastValue(ps, Ascii("secure"))
  {
    ValuesAt(ps, SecureKey);
  }

  lemma LanGiven(ps: seq<Pair>)
    ensures At(ValuesOf(ps), LanKey) == LastValue(ps, Ascii("lan"))
  {
    ValuesAt(ps, LanKey);
  }

  lemma NatGiven(ps: seq<Pair>)
    ensures At(ValuesOf(ps), NatKey) == LastValue(ps, Ascii("nat"))
  {
    ValuesAt(ps, NatKey);
  }

  predicate TextsMatch(a: ServerAdd, m: map<Key, bytes>) {
    a.gamedir == Text(At(m, GamedirKey)) && a.map_ == Text(At(m, MapKey))
  }

  predicate NumbersMatch(a: ServerAdd, m: map<Key, bytes>) {
    && a.protocol == Number(At(m, ProtocolKey), 255) && a.challenge == Number(At(m, ChallengeKey), 0xffff_ffff)
    && a.players == Number(At(m, PlayersKey), 255) && a.max == Number(At(m, MaxKey), 255)
    && a.bots == Number(At(m, BotsKey), 255)
  }

  predicate KindsMatch(a: ServerAdd, m: map<Key, bytes>) {
    && TypeIs(a.serverType, At(m, TypeKey)) && OsIs(a.os, At(m, OsKey)) && VersionIs(a.version, At(m, VersionKey))
    && RegionIs(a.region, At(m, RegionKey))
  }

  predicate FlagsMatch(a: ServerAdd, m: map<Key, bytes>) {
    forall f :: FlagIs(a.flags, f, At(m, FlagKey(f)))
  }

  lemma Letters(v: bytes)
    ensures TypeIs(ParseType(v), Some(v)) && OsIs(ParseOs(v), Some(v))
  {
    assert |v| == 1 ==> v == [v[0]];
  }

  lemma SetTextMatches(a: ServerAdd, m: map<Key, bytes>, x: Key, v: bytes)
    requires SetKey(a, x, v).Ok? && TextsMatch(a, m)
    ensures TextsMatch(SetKey(a, x, v).value, m[x := v])
  {
  }

  lemma SetNumberMatches(a: ServerAdd, m: map<Key, bytes>, x: Key, v: bytes)
    requires SetKey(a, x, v).Ok? && NumbersMatch(a, m)
    ensures NumbersMatch(SetKey(a, x, v).value, m[x := v])
  {
  }

  lemma KindsStay(a: ServerAdd, x: Key, v: bytes)
    requires SetKey(a, x, v).Ok?
    ensures var a' := SetKey(a, x, v).value;
            && a'.serverType == (if x == TypeKey then ParseType(v) else a.serverType)
            && a'.os == (if x == OsKey then ParseOs(v) else a.os)
            && (if x == VersionKey then VersionIs(a'.version, Some(v)) else a'.version == a.version)
            && (if x == RegionKey then RegionIs(a'.region, Some(v)) else a'.region == a.region)
  {
  }

  lemma SetKindMatches(a: ServerAdd, m: map<Key, bytes>, x: Key, v: bytes)
    requires SetKey(a, x, v).Ok? && KindsMatch(a, m)
    ensures KindsMatch(SetKey(a, x, v).value, m[x := v])
  {
    KindsStay(a, x, v);
    Letters(v);
  }

  lemma FlagsStay(a: ServerAdd, x: Key, v: bytes, f: ServerFlag)
    requires SetKey(a, x, v).Ok? && FlagKey(f) != x
    ensures f in SetKey(a, x, v).value.flags <==> f in a.flags
  {
  }

  lemma FlagIsSet(a: ServerAdd, v: bytes, f: ServerFlag)
    requires SetKey(a, FlagKey(f), v).Ok?
    ensures FlagIs(SetKey(a, FlagKey(f), v).value.flags, f, Some(v))
  {
  }

  lemma SetFlagMatches(a: ServerAdd, m: map<Key, bytes>, x: Key, v: bytes)
    requires SetKey(a, x, v).Ok? && FlagsMatch(a, m)
    ensures FlagsMatch(SetKey(a, x, v).value, m[x := v])
  {
    forall f
      ensures FlagIs(SetKey(a, x, v).value.flags, f, At(m[x := v], FlagKey(f)))
    {
      assert FlagIs(a.flags, f, At(m, FlagKey(f)));
      if FlagKey(f) == x {
        FlagIsSet(a, v, f);
      } else {
        FlagsStay(a, x, v, f);
      }
    }
  }

  predicate Matches(a: ServerAdd, m: map<Key, bytes>) {
    TextsMatch(a, m) && NumbersMatch(a, m) && KindsMatch(a, m) && FlagsMatch(a, m)
  }

  lemma SetKeyMatches(a: ServerAdd, m: map<Key, bytes>, x: Key, v: bytes)
    requires SetKey(a, x, v).Ok? && Matches(a, m)
    ensures Matches(SetKey(a, x, v).value, m[x := v])
  {
    SetTextMatches(a, m, x, v);
    SetNumberMatches(a, m, x, v);
    SetKindMatches(a, m, x, v);
    SetFlagMatches(a, m, x, v);
  }

  lemma DefaultKinds()
    ensures KindsMatch(DEFAULT, map[])
  {
  }

  lemma DefaultFlags()
    ensures FlagsMatch(DEFAULT, map[])
  {
  }

  lemma DefaultTexts()
    ensures TextsMatch(DEFAULT, map[]) && NumbersMatch(DEFAULT, map[])
  {
  }

  lemma {:induction false} FieldsMatch(ps: seq<Pair>)
    requires SetAll(EMPTY_DRAFT, ps, DraftSet).Ok?
    ensures Matches(SetAll(EMPTY_DRAFT, ps, DraftSet).value.add, ValuesOf(ps))
    decreases |ps|
  {
    if ps == [] {
      DefaultTexts();
      DefaultKinds();
      DefaultFlags();
    } else {
      SetAllSnoc(EMPTY_DRAFT, ps, DraftSet);
      FieldsMatch(Front(ps));
      if KeyOf(Last(ps).key).Some? {
        SetKeyMatches(SetAll(EMPTY_DRAFT, Front(ps), DraftSet).value.add, ValuesOf(Front(ps)),
                      KeyOf(Last(ps).key).value, Last(ps).value);
      }
    }
  }

  /** The packet is accepted as the registration `a`, whose body is the pairs `ps`. */
  predicate IsDecoded(src: bytes, a: ServerAdd, ps: seq<Pair>) {
    DecodeAdd(src) == Ok(a) && Pairs(Body(src).value) == Ok(ps)
  }

  lemma DecodedMatches(src: bytes, a: ServerAdd, ps: seq<Pair>)
    requires IsDecoded(src, a, ps)
    ensures Matches(a, ValuesOf(ps))
  {
    DecodedPairs(src);
    FieldsMatch(ps);
  }

  /** Main result, field by field: in whatever registration is accepted, each field is what the last pair with its key
      says, or a default if there is none. */
  lemma DecodedTexts(src: bytes, a: ServerAdd, ps: seq<Pair>)
    requires IsDecoded(src, a, ps)
    ensures a.gamedir == Text(LastValue(ps, Ascii("gamedir"))) && a.map_ == Text(LastValue(ps, Ascii("map")))
  {
    DecodedMatches(src, a, ps);
    GamedirGiven(ps);
    MapGiven(ps);
  }

  lemma DecodedNumbers(src: bytes, a: ServerAdd, ps: seq<Pair>)
    requires IsDecoded(src, a, ps)
    ensures a.protocol == Number(LastValue(ps, Ascii("protocol")), 255)
    ensures a.players == Number(LastValue(ps, Ascii("players")), 255)
    ensures a.max == Number(LastValue(ps, Ascii("max")), 255)
  {
    DecodedMatches(src, a, ps);
    ProtocolGiven(ps);
    PlayersGiven(ps);
    MaxGiven(ps);
  }

  lemma DecodedChallenge(src: bytes, a: ServerAdd, ps: seq<Pair>)
    requires IsDecoded(src, a, ps)
    ensures a.challenge == Number(LastValue(ps, Ascii("challenge")), 0xffff_ffff)
  {
    DecodedMatches(src, a, ps);
    ChallengeGiven(ps);
  }

  lemma DecodedBots(src: bytes, a: ServerAdd, ps: seq<Pair>)
    requires IsDecoded(src, a, ps)
    ensures a.bots == Number(LastValue(ps, Ascii("bots")), 255) && (SfBots in a.flags <==> a.bots != 0)
  {
    DecodedMatches(src, a, ps);
    BotsGiven(ps);
    assert FlagIs(a.flags, SfBots, At(ValuesOf(ps), FlagKey(SfBots)));
  }

  lemma DecodedKinds(src: bytes, a: ServerAdd, ps: seq<Pair>)
    requires IsDecoded(src, a, ps)
    ensures TypeIs(a.serverType, LastValue(ps, Ascii("type"))) && OsIs(a.os, LastValue(ps, Ascii("os")))
  {
    DecodedMatches(src, a, ps);
    TypeGiven(ps);
    OsGiven(ps);
  }

  lemma DecodedVersion(src: bytes, a: ServerAdd, ps: seq<Pair>)
    requires IsDecoded(src, a, ps)
    ensures VersionIs(a.version, LastValue(ps, Ascii("version"))) && RegionIs(a.region, LastValue(ps, Ascii("region")))
  {
    DecodedMatches(src, a, ps);
    VersionGiven(ps);
    RegionGiven(ps);
  }

  lemma DecodedSecurity(src: bytes, a: ServerAdd, ps: seq<Pair>)
    requires IsDecoded(src, a, ps)
    ensures FlagIs(a.flags, SfPassword, LastValue(ps, Ascii("password")))
    ensures FlagIs(a.flags, SfSecure, LastValue(ps, Ascii("secure")))
  {
    DecodedMatches(src, a, ps);
    PasswordGiven(ps);
    SecureGiven(ps);
    assert FlagIs(a.flags, SfPassword, At(ValuesOf(ps), FlagKey(SfPassword)));
    assert FlagIs(a.flags, SfSecure, At(ValuesOf(ps), FlagKey(SfSecure)));
  }

  lemma DecodedNetwork(src: bytes, a: ServerAdd, ps: seq<Pair>)
    requires IsDecoded(src, a, ps)
    ensures FlagIs(a.flags, SfLan, LastValue(ps, Ascii("lan"))) && FlagIs(a.flags, SfNat, LastValue(ps, Ascii("nat")))
  {
    DecodedMatches(src, a, ps);
    LanGiven(ps);
    NatGiven(ps);
    assert FlagIs(a.flags, SfLan, At(ValuesOf(ps), FlagKey(SfLan)));
    assert FlagIs(a.flags, SfNat, At(ValuesOf(ps), FlagKey(SfNat)));
  }

  // Why registrations are rejected

  /** What is wrong with a value that is not acceptable for its key. */
  function ErrorOf(p: Pair): CursorError {
    if KeyOf(p.key) in {Some(PasswordKey), Some(SecureKey), Some(LanKey), Some(NatKey)} then InvalidBool
    else if IsUtf8(p.value) then InvalidNumber else InvalidString
  }

  lemma BadValueError(a: ServerAdd, x: Key, v: bytes)
    ensures !ValidText(x, v) ==>
              SetKey(a, x, v) == Err(if x in {PasswordKey, SecureKey, LanKey, NatKey} then InvalidBool
                                     else if IsUtf8(v) then InvalidNumber else InvalidString)
  {
  }

  lemma BadPairError(d: Draft, p: Pair)
    ensures !ValidPair(p) ==> DraftSet(d, p.key, p.value) == Err(ErrorOf(p))
  {
    if KeyOf(p.key).Some? {
      BadValueError(d.add, KeyOf(p.key).value, p.value);
    }
  }

  /** Pair `i` is the first one whose value is not acceptable. */
  predicate IsFirstBad(ps: seq<Pair>, i: nat) {
    i < |ps| && !ValidPair(ps[i]) && forall j | 0 <= j < i :: ValidPair(ps[j])
  }

  lemma {:induction false} FirstBadFails(d: Draft, ps: seq<Pair>, i: nat)
    requires IsFirstBad(ps, i)
    ensures SetAll(d, ps, DraftSet) == Err(BadValue(ps[i].key, ErrorOf(ps[i])))
    decreases |ps|
  {
    SetSucceedsIffValid(d, ps[0]);
    if i == 0 {
      BadPairError(d, ps[0]);
    } else {
      FirstBadFails(DraftSet(d, ps[0].key, ps[0].value).value, ps[1..], i - 1);
    }
  }

  /** The first value that is not acceptable is reported, whatever is behind it; without one it is a malformed map, or
      the challenge that is missing. */
  lemma RejectedForFirst(src: bytes, i: nat)
    requires Body(src).Ok?
    ensures var ps := FrontPairs(Body(src).value);
            if exists k :: IsFirstBad(ps, k) then
              IsFirstBad(ps, i) ==> DecodeAdd(src) == Err(InvalidServerValue(ps[i].key, ErrorOf(ps[i])))
            else if Pairs(Body(src).value).Err? then DecodeAdd(src) == Err(InvalidMap)
            else if LastValue(ps, Ascii("challenge")).None? then
              DecodeAdd(src) == Err(InvalidServerValue(Ascii("challenge"), Expect))
            else DecodeAdd(src).Ok?
  {
    var ps := FrontPairs(Body(src).value);
    DecodeFails(EMPTY_DRAFT, Body(src).value, DraftSet);
    SetAllSucceedsIffValid(EMPTY_DRAFT, ps);
    HasLastValueIff(ps, Ascii("challenge"));
    if IsFirstBad(ps, i) {
      FirstBadFails(EMPTY_DRAFT, ps, i);
    } else if !(exists k :: IsFirstBad(ps, k)) {
      NoFirstBad(ps);
    }
  }

  lemma {:induction false} HasLastValueIff(ps: seq<Pair>, key: bytes)
    ensures LastValue(ps, key).Some? <==> exists p | p in ps :: p.key == key
  {
    if ps != [] {
      HasLastValueIff(Front(ps), key);
      assert forall p :: p in ps <==> p in Front(ps) || p == Last(ps);
    }
  }

  lemma {:induction false} NoFirstBad(ps: seq<Pair>)
    requires !exists k :: IsFirstBad(ps, k)
    ensures forall p | p in ps :: ValidPair(p)
  {
    var k := 0;
    while k < |ps|
      invariant k <= |ps| && forall j | 0 <= j < k :: ValidPair(ps[j])
    {
      assert !IsFirstBad(ps, k);
      k := k + 1;
    }
  }

  /** Packets without a body: a NUL in front of any newline, bytes behind the newline, no leading backslash. */
  lemma BrokenPackets(info: bytes, rest: bytes)
    requires NEWLINE !in info && NUL !in info
    ensures DecodeAdd(['0' as int, NEWLINE] + (info + ([NUL] + rest))) == Err(InvalidPacket)
    ensures rest != [] ==> DecodeAdd(['0' as int, NEWLINE] + (info + ([NEWLINE] + rest))) == Err(CursorFailed(ExpectEmpty))
    ensures info != [] && info[0] != BACKSLASH ==> DecodeAdd(['0' as int, NEWLINE] + (info + [NEWLINE])) == Err(InvalidMap)
  {
    Cursors.ReadExpectOf(HEADER, info + ([NUL] + rest));
    Cursors.ReadExpectOf(HEADER, info + ([NEWLINE] + rest));
    Cursors.ReadExpectOf(HEADER, info + [NEWLINE]);
    Cursors.FindBehind(info, NEWLINE, NUL, [NUL] + rest);
    Cursors.FindBehind(info, NEWLINE, NUL, [NEWLINE] + rest);
    InfoStringOf(info);
  }
}
