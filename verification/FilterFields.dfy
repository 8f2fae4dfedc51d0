/** What each key of a filter means, whatever the order of the pairs and however often a key comes
    (crates/xash3d-protocol/src/filter.rs). */
module FilterFields {
  import opened Prelude
  import opened Types
  import opened Utf8
  import opened Numerals
  import opened VersionText
  import opened MapIters
  import opened MapRecords
  import opened FilterText

  /** The number of a value, if there is one. */
  predicate NumberIs(n: Option<u32>, v: Option<bytes>, radix: int)
    requires Radix(radix)
  {
    if v.None? then n == None else n.Some? && ParseNumber(v.value, radix, 0xffff_ffff) == Ok(n.value)
  }

  predicate ByteIs(n: Option<byte>, v: Option<bytes>) {
    if v.None? then n == None else n.Some? && ParseNumber(v.value, 10, 255) == Ok(n.value)
  }

  predicate VersionIs(version: Option<Version>, v: Option<bytes>) {
    if v.None? then version == None else version.Some? && ParseVersion(v.value) == Ok(version.value)
  }

  /** A flag that is given is in the mask, and it is requested by the text 1. */
  predicate FlagIs(f: Filter, flag: FilterFlag, v: Option<bytes>) {
    (flag in f.mask <==> v.Some?) && (flag in f.flags <==> v == Some(['1' as int]))
  }

  /** The last value of each known key. */
  function ValuesOf(ps: seq<Pair>): map<Field, bytes> {
    if ps == [] then map[] else
    match FieldOf(Last(ps).key)
    case Some(x) => ValuesOf(Front(ps))[x := Last(ps).value]
    case None => ValuesOf(Front(ps))
  }

  function At(m: map<Field, bytes>, x: Field): Option<bytes> {
    if x in m then Some(m[x]) else None
  }

  lemma NameOfFlag(key: bytes, flag: FilterFlag)
    requires FieldOf(key) == Some(FlagField(flag)) && flag in {FfDedicated, FfSecure, FfPassword, FfEmpty, FfFull}
    ensures Name(FlagField(flag)) == key
  {
  }

  lemma NameOfOtherFlag(key: bytes, flag: FilterFlag)
    requires FieldOf(key) == Some(FlagField(flag)) && flag in {FfNoPlayers, FfNat, FfLan, FfBots}
    ensures Name(FlagField(flag)) == key
  {
  }

  lemma NameOfText(key: bytes, x: Field)
    requires FieldOf(key) == Some(x) && x in {GamedirField, MapField, OsField}
    ensures Name(x) == key
  {
  }

  lemma NameOfBuild(key: bytes, x: Field)
    requires FieldOf(key) == Some(x) && x in {ArchField, BranchField, CommitField}
    ensures Name(x) == key
  {
  }

  lemma NameOfNumber(key: bytes, x: Field)
    requires FieldOf(key) == Some(x) && x in {ClverField, ProtocolField, BuildnumField, KeyField}
    ensures Name(x) == key
  {
  }

  lemma NameOfField(key: bytes, x: Field)
    requires FieldOf(key) == Some(x)
    ensures Name(x) == key
  {
    match x
    case FlagField(flag) =>
      if flag in {FfDedicated, FfSecure, FfPassword, FfEmpty, FfFull} {
        NameOfFlag(key, flag);
      } else {
        NameOfOtherFlag(key, flag);
      }
    case ClverField | ProtocolField | BuildnumField | KeyField => NameOfNumber(key, x);
    case GamedirField | MapField | OsField => NameOfText(key, x);
    case _ => NameOfBuild(key, x);
  }

  lemma NamesDiffer(x: Field, y: Field)
    ensures Name(x) == Name(y) <==> x == y
  {
    FieldOfName(x);
    FieldOfName(y);
  }

  lemma {:induction false} ValuesAt(ps: seq<Pair>, x: Field)
    ensures At(ValuesOf(ps), x) == LastValue(ps, Name(x))
  {
    if ps != [] {
      var key := Last(ps).key;
      ValuesAt(Front(ps), x);
      if FieldOf(key).Some? {
        NameOfField(key, FieldOf(key).value);
        NamesDiffer(FieldOf(key).value, x);
      } else {
        FieldOfName(x);
      }
    }
  }

  lemma GamedirGiven(ps: seq<Pair>)
    ensures At(ValuesOf(ps), GamedirField) == LastValue(ps, Ascii("gamedir"))
  {
    ValuesAt(ps, GamedirField);
  }

  lemma MapGiven(ps: seq<Pair>)
    ensures At(ValuesOf(ps), MapField) == LastValue(ps, Ascii("map"))
  {
    ValuesAt(ps, MapField);
  }

  lemma OsGiven(ps: seq<Pair>)
    ensures At(ValuesOf(ps), OsField) == LastValue(ps, Ascii("os"))
  {
    ValuesAt(ps, OsField);
  }

  lemma ArchGiven(ps: seq<Pair>)
    ensures At(ValuesOf(ps), ArchField) == LastValue(ps, Ascii("arch"))
  {
    ValuesAt(ps, ArchField);
  }

  lemma BranchGiven(ps: seq<Pair>)
    ensures At(ValuesOf(ps), BranchField) == LastValue(ps, Ascii("branch"))
  {
    ValuesAt(ps, BranchField);
  }

  lemma CommitGiven(ps: seq<Pair>)
    ensures At(ValuesOf(ps), CommitField) == LastValue(ps, Ascii("commit"))
  {
    ValuesAt(ps, CommitField);
  }

  lemma ClverGiven(ps: seq<Pair>)
    ensures At(ValuesOf(ps), ClverField) == LastValue(ps, Ascii("clver"))
  {
    ValuesAt(ps, ClverField);
  }

  lemma ProtocolGiven(ps: seq<Pair>)
    ensures At(ValuesOf(ps), ProtocolField) == LastValue(ps, Ascii("protocol"))
  {
    ValuesAt(ps, ProtocolField);
  }

  lemma BuildnumGiven(ps: seq<Pair>)
    ensures At(ValuesOf(ps), BuildnumField) == LastValue(ps, Ascii("buildnum"))
  {
    ValuesAt(ps, BuildnumField);
  }

  lemma KeyGiven(ps: seq<Pair>)
    ensures At(ValuesOf(ps), KeyField) == LastValue(ps, Ascii("key"))
  {
    ValuesAt(ps, KeyField);
  }

  lemma DedicatedGiven(ps: seq<Pair>)
    ensures At(ValuesOf(ps), FlagField(FfDedicated)) == LastValue(ps, Ascii("dedicated"))
  {
    ValuesAt(ps, FlagField(FfDedicated));
  }

  lemma SecureGiven(ps: seq<Pair>)
    ensures At(ValuesOf(ps), FlagField(FfSecure)) == LastValue(ps, Ascii("secure"))
  {
    ValuesAt(ps, FlagField(FfSecure));
  }

  lemma PasswordGiven(ps: seq<Pair>)
    ensures At(ValuesOf(ps), FlagField(FfPassword)) == LastValue(ps, Ascii("password"))
  {
    ValuesAt(ps, FlagField(FfPassword));
  }

  lemma EmptyGiven(ps: seq<Pair>)
    ensures At(ValuesOf(ps), FlagField(FfEmpty)) == LastValue(ps, Ascii("empty"))
  {
    ValuesAt(ps, FlagField(FfEmpty));
  }

  lemma FullGiven(ps: seq<Pair>)
    ensures At(ValuesOf(ps), FlagField(FfFull)) == LastValue(ps, Ascii("full"))
  {
    ValuesAt(ps, FlagField(FfFull));
  }

  lemma NoPlayersGiven(ps: seq<Pair>)
    ensures At(ValuesOf(ps), FlagField(FfNoPlayers)) == LastValue(ps, Ascii("noplayers"))
  {
    ValuesAt(ps, FlagField(FfNoPlayers));
  }

  lemma NatGiven(ps: seq<Pair>)
    ensures At(ValuesOf(ps), FlagField(FfNat)) == LastValue(ps, Ascii("nat"))
  {
    ValuesAt(ps, FlagField(FfNat));
  }

  lemma LanGiven(ps: seq<Pair>)
    ensures At(ValuesOf(ps), FlagField(FfLan)) == LastValue(ps, Ascii("lan"))
  {
    ValuesAt(ps, FlagField(FfLan));
  }

  lemma BotsGiven(ps: seq<Pair>)
    ensures At(ValuesOf(ps), FlagField(FfBots)) == LastValue(ps, Ascii("bots"))
  {
    ValuesAt(ps, FlagField(FfBots));
  }

  predicate TextsMatch(f: Filter, m: map<Field, bytes>) {
    && f.gamedir == At(m, GamedirField) && f.map_ == At(m, MapField) && f.os == At(m, OsField)
    && f.arch == At(m, ArchField) && f.branch == At(m, BranchField) && f.commit == At(m, CommitField)
  }

  predicate NumbersMatch(f: Filter, m: map<Field, bytes>) {
    && VersionIs(f.clver, At(m, ClverField)) && ByteIs(f.protocol, At(m, ProtocolField))
    && NumberIs(f.buildnum, At(m, BuildnumField), 10) && NumberIs(f.key, At(m, KeyField), 16)
  }

  predicate FlagsMatch(f: Filter, m: map<Field, bytes>) {
    forall flag :: FlagIs(f, flag, At(m, FlagField(flag)))
  }

  predicate Matches(f: Filter, m: map<Field, bytes>) {
    TextsMatch(f, m) && NumbersMatch(f, m) && FlagsMatch(f, m)
  }

  lemma SetTextMatches(f: Filter, m: map<Field, bytes>, x: Field, v: bytes)
    requires SetField(f, x, v).Ok? && TextsMatch(f, m)
    ensures TextsMatch(SetField(f, x, v).value, m[x := v])
  {
  }

  lemma SetNumberMatches(f: Filter, m: map<Field, bytes>, x: Field, v: bytes)
    requires SetField(f, x, v).Ok? && NumbersMatch(f, m)
    ensures NumbersMatch(SetField(f, x, v).value, m[x := v])
  {
  }

  lemma SetFlagMatches(f: Filter, m: map<Field, bytes>, x: Field, v: bytes)
    requires SetField(f, x, v).Ok? && FlagsMatch(f, m)
    ensures FlagsMatch(SetField(f, x, v).value, m[x := v])
  {
    forall flag
      ensures FlagIs(SetField(f, x, v).value, flag, At(m[x := v], FlagField(flag)))
    {
      assert FlagIs(f, flag, At(m, FlagField(flag)));
    }
  }

  lemma SetFieldMatches(f: Filter, m: map<Field, bytes>, x: Field, v: bytes)
    requires SetField(f, x, v).Ok? && Matches(f, m)
    ensures Matches(SetField(f, x, v).value, m[x := v])
  {
    SetTextMatches(f, m, x, v);
    SetNumberMatches(f, m, x, v);
    SetFlagMatches(f, m, x, v);
  }

  lemma {:induction false} FieldsMatch(ps: seq<Pair>)
    requires SetAll(DEFAULT, ps, FilterSet).Ok?
    ensures Matches(SetAll(DEFAULT, ps, FilterSet).value, ValuesOf(ps))
    decreases |ps|
  {
    if ps != [] {
      SetAllSnoc(DEFAULT, ps, FilterSet);
      FieldsMatch(Front(ps));
      if FieldOf(Last(ps).key).Some? {
        SetFieldMatches(SetAll(DEFAULT, Front(ps), FilterSet).value, ValuesOf(Front(ps)),
                        FieldOf(Last(ps).key).value, Last(ps).value);
      }
    }
  }

  /** The text is accepted as the filter `f`, and is the pairs `ps`. */
  predicate IsParsed(src: bytes, f: Filter, ps: seq<Pair>) {
    ParseFilter(src) == Ok(f) && Pairs(FromSlice(src).value) == Ok(ps)
  }

  lemma ParsedMatches(src: bytes, f: Filter, ps: seq<Pair>)
    requires IsParsed(src, f, ps)
    ensures Matches(f, ValuesOf(ps))
  {
    DecodeIsSetAll(DEFAULT, FromSlice(src).value, FilterSet);
    FieldsMatch(ps);
  }

  /** Main result, field by field: in whatever filter is accepted, each field is what the last pair with its key says,
      and missing if there is none. */
  lemma ParsedNames(src: bytes, f: Filter, ps: seq<Pair>)
    requires IsParsed(src, f, ps)
    ensures f.gamedir == LastValue(ps, Ascii("gamedir")) && f.map_ == LastValue(ps, Ascii("map"))
  {
    ParsedMatches(src, f, ps);
    GamedirGiven(ps);
    MapGiven(ps);
  }

  lemma ParsedPlatform(src: bytes, f: Filter, ps: seq<Pair>)
    requires IsParsed(src, f, ps)
    ensures f.os == LastValue(ps, Ascii("os")) && f.arch == LastValue(ps, Ascii("arch"))
  {
    ParsedMatches(src, f, ps);
    OsGiven(ps);
    ArchGiven(ps);
  }

  lemma ParsedBuild(src: bytes, f: Filter, ps: seq<Pair>)
    requires IsParsed(src, f, ps)
    ensures f.branch == LastValue(ps, Ascii("branch")) && f.commit == LastValue(ps, Ascii("commit"))
  {
    ParsedMatches(src, f, ps);
    BranchGiven(ps);
    CommitGiven(ps);
  }

  lemma ParsedVersion(src: bytes, f: Filter, ps: seq<Pair>)
    requires IsParsed(src, f, ps)
    ensures VersionIs(f.clver, LastValue(ps, Ascii("clver")))
    ensures ByteIs(f.protocol, LastValue(ps, Ascii("protocol")))
  {
    ParsedMatches(src, f, ps);
    ClverGiven(ps);
    ProtocolGiven(ps);
  }

  /** The key is hexadecimal, the other numbers are decimal. */
  lemma ParsedNumbers(src: bytes, f: Filter, ps: seq<Pair>)
    requires IsParsed(src, f, ps)
    ensures NumberIs(f.buildnum, LastValue(ps, Ascii("buildnum")), 10)
    ensures NumberIs(f.key, LastValue(ps, Ascii("key")), 16)
  {
    ParsedMatches(src, f, ps);
    BuildnumGiven(ps);
    KeyGiven(ps);
  }

  lemma ParsedSecurity(src: bytes, f: Filter, ps: seq<Pair>)
    requires IsParsed(src, f, ps)
    ensures FlagIs(f, FfDedicated, LastValue(ps, Ascii("dedicated")))
    ensures FlagIs(f, FfSecure, LastValue(ps, Ascii("secure")))
    ensures FlagIs(f, FfPassword, LastValue(ps, Ascii("password")))
  {
    ParsedMatches(src, f, ps);
    DedicatedGiven(ps);
    SecureGiven(ps);
    PasswordGiven(ps);
    assert FlagIs(f, FfDedicated, At(ValuesOf(ps), FlagField(FfDedicated)));
    assert FlagIs(f, FfSecure, At(ValuesOf(ps), FlagField(FfSecure)));
    assert FlagIs(f, FfPassword, At(ValuesOf(ps), FlagField(FfPassword)));
  }

  lemma ParsedPlayers(src: bytes, f: Filter, ps: seq<Pair>)
    requires IsParsed(src, f, ps)
    ensures FlagIs(f, FfEmpty, LastValue(ps, Ascii("empty")))
    ensures FlagIs(f, FfFull, LastValue(ps, Ascii("full")))
    ensures FlagIs(f, FfNoPlayers, LastValue(ps, Ascii("noplayers")))
  {
    ParsedMatches(src, f, ps);
    EmptyGiven(ps);
    FullGiven(ps);
    NoPlayersGiven(ps);
    assert FlagIs(f, FfEmpty, At(ValuesOf(ps), FlagField(FfEmpty)));
    assert FlagIs(f, FfFull, At(ValuesOf(ps), FlagField(FfFull)));
    assert FlagIs(f, FfNoPlayers, At(ValuesOf(ps), FlagField(FfNoPlayers)));
  }

  lemma ParsedNetwork(src: bytes, f: Filter, ps: seq<Pair>)
    requires IsParsed(src, f, ps)
    ensures FlagIs(f, FfNat, LastValue(ps, Ascii("nat")))
    ensures FlagIs(f, FfLan, LastValue(ps, Ascii("lan")))
    ensures FlagIs(f, FfBots, LastValue(ps, Ascii("bots")))
  {
    ParsedMatches(src, f, ps);
    NatGiven(ps);
    LanGiven(ps);
    BotsGiven(ps);
    assert FlagIs(f, FfNat, At(ValuesOf(ps), FlagField(FfNat)));
    assert FlagIs(f, FfLan, At(ValuesOf(ps), FlagField(FfLan)));
    assert FlagIs(f, FfBots, At(ValuesOf(ps), FlagField(FfBots)));
  }
}
