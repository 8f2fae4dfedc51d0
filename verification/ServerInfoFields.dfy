/** What each key of a game server's reply means, whatever the order of the pairs and however often a key comes
    (GetServerInfoResponse in crates/xash3d-protocol/src/net/server.rs). */
module ServerInfoFields {
  import opened Prelude
  import opened Numerals
  import opened MapIters
  import opened MapRecords
  import opened ServerInfoText

  /** A value, or nothing. */
  function Text(v: Option<bytes>): bytes {
    if v.Some? then v.value else []
  }

  /** The number of a value, or 0. */
  function Number(v: Option<bytes>): nat {
    if v.None? then 0 else
    var n := ParseNumber(v.value, 10, 255);
    if n.Ok? then n.value else 0
  }

  /** The last value of each known key. */
  function ValuesOf(ps: seq<Pair>): map<Key, bytes> {
    if ps == [] then map[] else
    match KeyOf(Last(ps).key)
    case Some(x) => ValuesOf(Front(ps))[x := Last(ps).value]
    case None => ValuesOf(Front(ps))
  }

  function At(m: map<Key, bytes>, x: Key): Option<bytes> {
    if x in m then Some(m[x]) else None
  }

  predicate IsFlag(x: Key) {
    x in {DmKey, TeamKey, CoopKey, PasswordKey, DedicatedKey}
  }

  lemma NameOfFlag(key: bytes, x: Key)
    requires KeyOf(key) == Some(x) && IsFlag(x)
    ensures Name(x) == key
  {
  }

  lemma NameOfOther(key: bytes, x: Key)
    requires KeyOf(key) == Some(x) && !IsFlag(x)
    ensures Name(x) == key
  {
  }

  lemma NameOfKey(key: bytes, x: Key)
    requires KeyOf(key) == Some(x)
    ensures Name(x) == key
  {
    if IsFlag(x) {
      NameOfFlag(key, x);
    } else {
      NameOfOther(key, x);
    }
  }

  lemma NamesDiffer(x: Key, y: Key)
    ensures Name(x) == Name(y) <==> x == y
  {
    KeyOfName(x);
    KeyOfName(y);
  }

  lemma {:induction false} ValuesAt(ps: seq<Pair>, x: Key)
    ensures At(ValuesOf(ps), x) == LastValue(ps, Name(x))
  {
    if ps != [] {
      ValuesAt(Front(ps), x);
      if KeyOf(Last(ps).key).Some? {
        NameOfKey(Last(ps).key, KeyOf(Last(ps).key).value);
        NamesDiffer(KeyOf(Last(ps).key).value, x);
      } else {
        KeyOfName(x);
      }
    }
  }

  lemma GamedirGiven(ps: seq<Pair>)
    ensures At(ValuesOf(ps), GamedirKey) == LastValue(ps, Ascii("gamedir"))
  {
    ValuesAt(ps, GamedirKey);
  }

  lemma MapGiven(ps: seq<Pair>)
    ensures At(ValuesOf(ps), MapKey) == LastValue(ps, Ascii("map"))
  {
    ValuesAt(ps, MapKey);
  }

  lemma HostGiven(ps: seq<Pair>)
    ensures At(ValuesOf(ps), HostKey) == LastValue(ps, Ascii("host"))
  {
    ValuesAt(ps, HostKey);
  }

  lemma ProtocolGiven(ps: seq<Pair>)
    ensures At(ValuesOf(ps), ProtocolKey) == LastValue(ps, Ascii("p"))
  {
    ValuesAt(ps, ProtocolKey);
  }

  lemma NumclGiven(ps: seq<Pair>)
    ensures At(ValuesOf(ps), NumclKey) == LastValue(ps, Ascii("numcl"))
  {
    ValuesAt(ps, NumclKey);
  }

  lemma MaxclGiven(ps: seq<Pair>)
    ensures At(ValuesOf(ps), MaxclKey) == LastValue(ps, Ascii("maxcl"))
  {
    ValuesAt(ps, MaxclKey);
  }

  lemma DmGiven(ps: seq<Pair>)
    ensures At(ValuesOf(ps), DmKey) == LastValue(ps, Ascii("dm"))
  {
    ValuesAt(ps, DmKey);
  }

  lemma TeamGiven(ps: seq<Pair>)
    ensures At(ValuesOf(ps), TeamKey) == LastValue(ps, Ascii("team"))
  {
    ValuesAt(ps, TeamKey);
  }

  lemma CoopGiven(ps: seq<Pair>)
    ensures At(ValuesOf(ps), CoopKey) == LastValue(ps, Ascii("coop"))
  {
    ValuesAt(ps, CoopKey);
  }

  lemma PasswordGiven(ps: seq<Pair>)
    ensures At(ValuesOf(ps), PasswordKey) == LastValue(ps, Ascii("password"))
  {
    ValuesAt(ps, PasswordKey);
  }

  lemma DedicatedGiven(ps: seq<Pair>)
    ensures At(ValuesOf(ps), DedicatedKey) == LastValue(ps, Ascii("dedicated"))
  {
    ValuesAt(ps, DedicatedKey);
  }

  predicate TextsMatch(d: Details, m: map<Key, bytes>) {
    d.gamedir == Text(At(m, GamedirKey)) && d.map_ == Text(At(m, MapKey)) && d.host == Text(At(m, HostKey))
  }

  predicate NumbersMatch(d: Details, m: map<Key, bytes>) {
    d.protocol == Number(At(m, ProtocolKey)) && d.numcl == Number(At(m, NumclKey)) && d.maxcl == Number(At(m, MaxclKey))
  }

  /** Flags are set by the text 1. */
  predicate ModesMatch(d: Details, m: map<Key, bytes>) {
    && (d.dm <==> At(m, DmKey) == Some(['1' as int])) && (d.team <==> At(m, TeamKey) == Some(['1' as int]))
    && (d.coop <==> At(m, CoopKey) == Some(['1' as int]))
  }

  predicate AccessMatches(d: Details, m: map<Key, bytes>) {
    && (d.password <==> At(m, PasswordKey) == Some(['1' as int]))
    && (d.dedicated <==> At(m, DedicatedKey) == Some(['1' as int]))
  }

  predicate Matches(d: Details, m: map<Key, bytes>) {
    TextsMatch(d, m) && NumbersMatch(d, m) && ModesMatch(d, m) && AccessMatches(d, m)
  }

  lemma SetTextMatches(d: Details, m: map<Key, bytes>, x: Key, v: bytes)
    requires SetKey(d, x, v).Ok? && TextsMatch(d, m)
    ensures TextsMatch(SetKey(d, x, v).value, m[x := v])
  {
  }

  lemma SetNumberMatches(d: Details, m: map<Key, bytes>, x: Key, v: bytes)
    requires SetKey(d, x, v).Ok? && NumbersMatch(d, m)
    ensures NumbersMatch(SetKey(d, x, v).value, m[x := v])
  {
  }

  lemma SetModeMatches(d: Details, m: map<Key, bytes>, x: Key, v: bytes)
    requires SetKey(d, x, v).Ok? && ModesMatch(d, m)
    ensures ModesMatch(SetKey(d, x, v).value, m[x := v])
  {
  }

  lemma SetAccessMatches(d: Details, m: map<Key, bytes>, x: Key, v: bytes)
    requires SetKey(d, x, v).Ok? && AccessMatches(d, m)
    ensures AccessMatches(SetKey(d, x, v).value, m[x := v])
  {
  }

  lemma SetKeyMatches(d: Details, m: map<Key, bytes>, x: Key, v: bytes)
    requires SetKey(d, x, v).Ok? && Matches(d, m)
    ensures Matches(SetKey(d, x, v).value, m[x := v])
  {
    SetTextMatches(d, m, x, v);
    SetNumberMatches(d, m, x, v);
    SetModeMatches(d, m, x, v);
    SetAccessMatches(d, m, x, v);
  }

  lemma {:induction false} FieldsMatch(ps: seq<Pair>)
    requires SetAll(DEFAULT, ps, DetailsSet).Ok?
    ensures Matches(SetAll(DEFAULT, ps, DetailsSet).value, ValuesOf(ps))
    decreases |ps|
  {
    if ps != [] {
      SetAllSnoc(DEFAULT, ps, DetailsSet);
      FieldsMatch(Front(ps));
      if KeyOf(Last(ps).key).Some? {
        SetKeyMatches(SetAll(DEFAULT, Front(ps), DetailsSet).value, ValuesOf(Front(ps)),
                      KeyOf(Last(ps).key).value, Last(ps).value);
      }
    }
  }

  /** The reply is accepted as `d`, and its body is the pairs `ps`. */
  predicate IsDecoded(src: bytes, d: Details, ps: seq<Pair>) {
    DecodeInfo(src) == Ok(d) && Pairs(Body(src).value) == Ok(ps)
  }

  lemma DecodedMatches(src: bytes, d: Details, ps: seq<Pair>)
    requires IsDecoded(src, d, ps)
    ensures Matches(d, ValuesOf(ps))
  {
    DecodeIsSetAll(DEFAULT, Body(src).value, DetailsSet);
    FieldsMatch(ps);
  }

  /** Main result, field by field: in whatever reply is accepted, each field is what the last pair with its key says, or
      a default if there is none. */
  lemma DecodedTexts(src: bytes, d: Details, ps: seq<Pair>)
    requires IsDecoded(src, d, ps)
    ensures d.gamedir == Text(LastValue(ps, Ascii("gamedir")))
    ensures d.map_ == Text(LastValue(ps, Ascii("map")))
    ensures d.host == Text(LastValue(ps, Ascii("host")))
  {
    DecodedMatches(src, d, ps);
    GamedirGiven(ps);
    MapGiven(ps);
    HostGiven(ps);
  }

  lemma DecodedNumbers(src: bytes, d: Details, ps: seq<Pair>)
    requires IsDecoded(src, d, ps)
    ensures d.protocol == Number(LastValue(ps, Ascii("p")))
    ensures d.numcl == Number(LastValue(ps, Ascii("numcl")))
    ensures d.maxcl == Number(LastValue(ps, Ascii("maxcl")))
  {
    DecodedMatches(src, d, ps);
    ProtocolGiven(ps);
    NumclGiven(ps);
    MaxclGiven(ps);
  }

  lemma DecodedModes(src: bytes, d: Details, ps: seq<Pair>)
    requires IsDecoded(src, d, ps)
    ensures d.dm <==> LastValue(ps, Ascii("dm")) == Some(['1' as int])
    ensures d.team <==> LastValue(ps, Ascii("team")) == Some(['1' as int])
    ensures d.coop <==> LastValue(ps, Ascii("coop")) == Some(['1' as int])
  {
    DecodedMatches(src, d, ps);
    DmGiven(ps);
    TeamGiven(ps);
    CoopGiven(ps);
  }

  lemma DecodedAccess(src: bytes, d: Details, ps: seq<Pair>)
    requires IsDecoded(src, d, ps)
    ensures d.password <==> LastValue(ps, Ascii("password")) == Some(['1' as int])
    ensures d.dedicated <==> LastValue(ps, Ascii("dedicated")) == Some(['1' as int])
  {
    DecodedMatches(src, d, ps);
    PasswordGiven(ps);
    DedicatedGiven(ps);
  }
}
