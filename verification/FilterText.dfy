/** The text form of a server filter (crates/xash3d-protocol/src/filter.rs). */
module FilterText {
  import opened Prelude
  import opened Types
  import opened Escape
  import opened Numerals
  import opened MapIters
  import opened MapRecords
  import opened VersionText

  datatype Field =
    | FlagField(flag: FilterFlag)
    | GamedirField | MapField | ClverField | ProtocolField | BuildnumField | KeyField
    | OsField | ArchField | BranchField | CommitField

  function Name(x: Field): bytes {
    match x
    case FlagField(flag) => (
      match flag
      case FfDedicated => Ascii("dedicated")
      case FfSecure => Ascii("secure")
      case FfPassword => Ascii("password")
      case FfEmpty => Ascii("empty")
      case FfFull => Ascii("full")
      case FfNoPlayers => Ascii("noplayers")
      case FfNat => Ascii("nat")
      case FfLan => Ascii("lan")
      case FfBots => Ascii("bots"))
    case GamedirField => Ascii("gamedir")
    case MapField => Ascii("map")
    case ClverField => Ascii("clver")
    case ProtocolField => Ascii("protocol")
    case BuildnumField => Ascii("buildnum")
    case KeyField => Ascii("key")
    case OsField => Ascii("os")
    case ArchField => Ascii("arch")
    case BranchField => Ascii("branch")
    case CommitField => Ascii("commit")
  }

  function FieldOf(key: bytes): Option<Field> {
    if key == Ascii("dedicated") then Some(FlagField(FfDedicated))
    else if key == Ascii("secure") then Some(FlagField(FfSecure))
    else if key == Ascii("gamedir") then Some(GamedirField)
    else if key == Ascii("map") then Some(MapField)
    else if key == Ascii("protocol") then Some(ProtocolField)
    else if key == Ascii("empty") then Some(FlagField(FfEmpty))
    else if key == Ascii("full") then Some(FlagField(FfFull))
    else if key == Ascii("password") then Some(FlagField(FfPassword))
    else if key == Ascii("noplayers") then Some(FlagField(FfNoPlayers))
    else if key == Ascii("clver") then Some(ClverField)
    else if key == Ascii("os") then Some(OsField)
    else if key == Ascii("arch") then Some(ArchField)
    else if key == Ascii("branch") then Some(BranchField)
    else if key == Ascii("commit") then Some(CommitField)
    else if key == Ascii("buildnum") then Some(BuildnumField)
    else if key == Ascii("nat") then Some(FlagField(FfNat))
    else if key == Ascii("lan") then Some(FlagField(FfLan))
    else if key == Ascii("bots") then Some(FlagField(FfBots))
    else if key == Ascii("key") then Some(KeyField)
    else None
  }

  /** Length and first two characters tell all names apart. */
  function Tag(key: bytes): (nat, byte, byte)
    requires |key| >= 2
  {
    (|key|, key[0], key[1])
  }

  lemma NameTags()
    ensures Tag(Ascii("dedicated")) == (9, 100, 101)
    ensures Tag(Ascii("secure")) == (6, 115, 101)
    ensures Tag(Ascii("password")) == (8, 112, 97)
    ensures Tag(Ascii("empty")) == (5, 101, 109)
    ensures Tag(Ascii("full")) == (4, 102, 117)
    ensures Tag(Ascii("noplayers")) == (9, 110, 111)
    ensures Tag(Ascii("nat")) == (3, 110, 97)
    ensures Tag(Ascii("lan")) == (3, 108, 97)
    ensures Tag(Ascii("bots")) == (4, 98, 111)
    ensures Tag(Ascii("gamedir")) == (7, 103, 97)
    ensures Tag(Ascii("map")) == (3, 109, 97)
    ensures Tag(Ascii("clver")) == (5, 99, 108)
    ensures Tag(Ascii("protocol")) == (8, 112, 114)
    ensures Tag(Ascii("buildnum")) == (8, 98, 117)
    ensures Tag(Ascii("key")) == (3, 107, 101)
    ensures Tag(Ascii("os")) == (2, 111, 115)
    ensures Tag(Ascii("arch")) == (4, 97, 114)
    ensures Tag(Ascii("branch")) == (6, 98, 114)
    ensures Tag(Ascii("commit")) == (6, 99, 111)
  {
  }

  lemma FieldOfName(x: Field)
    ensures FieldOf(Name(x)) == Some(x)
  {
    NameTags();
  }

  function SetField(f: Filter, x: Field, v: bytes): Result<Filter, CursorError> {
    match x
    case FlagField(flag) =>
      var value :- ParseBool(v);
      Ok(f.(flags := WithFlag(f.flags, flag, value), mask := f.mask + {flag}))
    case GamedirField => Ok(f.(gamedir := Some(v)))
    case MapField => Ok(f.(map_ := Some(v)))
    case ClverField =>
      var version :- ParseVersion(v);
      Ok(f.(clver := Some(version)))
    case ProtocolField =>
      var n :- ParseNumber(v, 10, 255);
      Ok(f.(protocol := Some(n)))
    case BuildnumField =>
      var n :- ParseNumber(v, 10, 0xffff_ffff);
      Ok(f.(buildnum := Some(n)))
    case KeyField =>
      var n :- ParseNumber(v, 16, 0xffff_ffff);
      Ok(f.(key := Some(n)))
    case OsField => Ok(f.(os := Some(v)))
    case ArchField => Ok(f.(arch := Some(v)))
    case BranchField => Ok(f.(branch := Some(v)))
    case CommitField => Ok(f.(commit := Some(v)))
  }

  /** Unknown keys are skipped. */
  function FilterSet(f: Filter, key: bytes, v: bytes): Result<Filter, CursorError> {
    match FieldOf(key)
    case Some(x) => SetField(f, x, v)
    case None => Ok(f)
  }

  const DEFAULT := Filter(None, None, None, None, None, None, None, None, None, None, {}, {})

  function FilterError(e: Failure): Error {
    match e
    case BadMap => InvalidMap
    case BadValue(key, error) => InvalidFilterValue(key, error)
  }

  function ParseBody(body: bytes): Result<Filter, Error> {
    match Decode(DEFAULT, body, FilterSet)
    case Ok(f) => Ok(f)
    case Err(e) => Err(FilterError(e))
  }

  function ParseFilter(src: bytes): Result<Filter, Error> {
    var body :- FromSlice(src);
    ParseBody(body)
  }

  /** The decoding loop over a map iterator. */
  method FromMapIter(iter: MapIter) returns (r: Result<Filter, Error>)
    modifies iter
    ensures r == ParseBody(old(iter.bytes_))
  {
    var f := DEFAULT;
    while iter.bytes_ != []
      invariant Decode(f, iter.bytes_, FilterSet) == Decode(DEFAULT, old(iter.bytes_), FilterSet)
      decreases |iter.bytes_|
    {
      var item := iter.Next();
      if item.value.Err? {
        return Err(InvalidMap);
      }
      var pair := item.value.value;
      match FilterSet(f, pair.key, pair.value)
      case Ok(f') => f := f';
      case Err(e) => return Err(InvalidFilterValue(pair.key, e));
    }
    r := Ok(f);
  }

  /** The order in which fields are printed; `secure` comes twice. */
  const PRINT_ORDER: seq<Field> :=
    [FlagField(FfDedicated), FlagField(FfSecure), GamedirField, FlagField(FfSecure), MapField,
     FlagField(FfEmpty), FlagField(FfFull), FlagField(FfPassword), FlagField(FfNoPlayers), ClverField,
     FlagField(FfNat), FlagField(FfLan), FlagField(FfBots), KeyField, ProtocolField, BuildnumField,
     OsField, ArchField, BranchField, CommitField]

  function TextOf(s: Option<bytes>): Option<bytes> {
    if s.Some? then Some(EscapeBytes(s.value)) else None
  }

  /** The printed value of a field, if the filter has it. */
  function FieldText(f: Filter, x: Field): Option<bytes> {
    match x
    case FlagField(flag) => if flag in f.mask then Some(if flag in f.flags then [49] else [48]) else None
    case GamedirField => TextOf(f.gamedir)
    case MapField => TextOf(f.map_)
    case ClverField => if f.clver.Some? then Some(PrintVersion(f.clver.value)) else None
    case ProtocolField => if f.protocol.Some? then Some(Print(f.protocol.value, 10)) else None
    case BuildnumField => if f.buildnum.Some? then Some(Print(f.buildnum.value, 10)) else None
    case KeyField => if f.key.Some? then Some(Print(f.key.value, 16)) else None
    case OsField => TextOf(f.os)
    case ArchField => TextOf(f.arch)
    case BranchField => TextOf(f.branch)
    case CommitField => TextOf(f.commit)
  }

  function PrintField(f: Filter, x: Field): bytes {
    match FieldText(f, x)
    case Some(text) => [BACKSLASH] + (Name(x) + [BACKSLASH] + text)
    case None => []
  }

  function PrintFields(f: Filter, xs: seq<Field>): bytes {
    if xs == [] then [] else PrintField(f, xs[0]) + PrintFields(f, xs[1..])
  }

  /** The text of a filter (Display). */
  function PrintFilter(f: Filter): bytes {
    PrintFields(f, PRINT_ORDER)
  }

  function PairsOfField(f: Filter, x: Field): seq<Pair> {
    match FieldText(f, x)
    case Some(text) => [Pair(Name(x), text)]
    case None => []
  }

  function PairsOfFields(f: Filter, xs: seq<Field>): seq<Pair> {
    if xs == [] then [] else PairsOfField(f, xs[0]) + PairsOfFields(f, xs[1..])
  }

  lemma {:induction false} PrintedIsSerialized(f: Filter, xs: seq<Field>)
    ensures PrintFields(f, xs) == Serialize(PairsOfFields(f, xs))
  {
    if xs != [] {
      PrintedIsSerialized(f, xs[1..]);
      var ps := PairsOfField(f, xs[0]);
      SerializeConcat(ps, PairsOfFields(f, xs[1..]));
      if ps != [] {
        assert Serialize(ps) == SerializePair(ps[0]) + [] == SerializePair(ps[0]);
      }
    }
  }

  predicate PrintableText(s: Option<bytes>) {
    s.Some? ==> AllPrintable(s.value)
  }

  /** The text fields need no escaping. */
  predicate HasPlainText(f: Filter) {
    && PrintableText(f.gamedir) && PrintableText(f.map_) && PrintableText(f.os)
    && PrintableText(f.arch) && PrintableText(f.branch) && PrintableText(f.commit)
  }

  /** The part of a filter that the fields in `xs` carry. */
  function Part(f: Filter, xs: set<Field>): Filter {
    Filter(
      if GamedirField in xs then f.gamedir else None, if MapField in xs then f.map_ else None,
      if ClverField in xs then f.clver else None, if ProtocolField in xs then f.protocol else None,
      if OsField in xs then f.os else None, if ArchField in xs then f.arch else None,
      if BranchField in xs then f.branch else None, if CommitField in xs then f.commit else None,
      if BuildnumField in xs then f.buildnum else None, if KeyField in xs then f.key else None,
      set g | g in f.flags && FlagField(g) in xs, set g | g in f.mask && FlagField(g) in xs)
  }

  lemma PlainTextIsKept(s: Option<bytes>)
    requires PrintableText(s)
    ensures TextOf(s) == s
  {
    if s.Some? {
      PrintableIsUnchanged(s.value);
    }
  }

  /** Reading back what a field printed sets that field. */
  lemma SetFieldInvertsText(f: Filter, xs: set<Field>, x: Field)
    requires HasPlainText(f) && f.flags <= f.mask && FieldText(f, x).Some?
    ensures SetField(Part(f, xs), x, FieldText(f, x).value) == Ok(Part(f, xs + {x}))
  {
    match x
    case FlagField(flag) =>
      assert WithFlag(Part(f, xs).flags, flag, flag in f.flags) == Part(f, xs + {x}).flags;
      assert Part(f, xs).mask + {flag} == Part(f, xs + {x}).mask;
    case ClverField | ProtocolField | BuildnumField | KeyField => SetNumberInvertsText(f, xs, x);
    case _ => SetTextInvertsText(f, xs, x);
  }

  lemma SetNumberInvertsText(f: Filter, xs: set<Field>, x: Field)
    requires x in {ClverField, ProtocolField, BuildnumField, KeyField} && FieldText(f, x).Some?
    ensures SetField(Part(f, xs), x, FieldText(f, x).value) == Ok(Part(f, xs + {x}))
  {
    OtherFlags(f, xs, x);
    match x
    case ClverField => ParseInvertsPrintVersion(f.clver.value);
    case ProtocolField => ParseInvertsPrint(f.protocol.value, 10, 255);
    case BuildnumField => ParseInvertsPrint(f.buildnum.value, 10, 0xffff_ffff);
    case KeyField => ParseInvertsPrint(f.key.value, 16, 0xffff_ffff);
    case _ =>
  }

  lemma SetTextInvertsText(f: Filter, xs: set<Field>, x: Field)
    requires HasPlainText(f) && FieldText(f, x).Some?
    requires x in {GamedirField, MapField, OsField, ArchField, BranchField, CommitField}
    ensures SetField(Part(f, xs), x, FieldText(f, x).value) == Ok(Part(f, xs + {x}))
  {
    OtherFlags(f, xs, x);
    PlainTexts(f);
  }

  lemma OtherFlags(f: Filter, xs: set<Field>, x: Field)
    requires !x.FlagField?
    ensures Part(f, xs + {x}).flags == Part(f, xs).flags && Part(f, xs + {x}).mask == Part(f, xs).mask
  {
  }

  lemma FieldRoundTrip(f: Filter, xs: set<Field>, x: Field)
    requires HasPlainText(f) && f.flags <= f.mask
    ensures SetAll(Part(f, xs), PairsOfField(f, x), FilterSet) == Ok(Part(f, xs + {x}))
  {
    FieldOfName(x);
    if FieldText(f, x).Some? {
      SetFieldInvertsText(f, xs, x);
    } else {
      assert Part(f, xs + {x}).flags == Part(f, xs).flags && Part(f, xs + {x}).mask == Part(f, xs).mask;
    }
  }

  lemma {:induction false} FieldsRoundTrip(f: Filter, done: set<Field>, xs: seq<Field>)
    requires HasPlainText(f) && f.flags <= f.mask
    ensures SetAll(Part(f, done), PairsOfFields(f, xs), FilterSet) == Ok(Part(f, done + set x | x in xs))
    decreases |xs|
  {
    if xs == [] {
      assert done + (set x | x in xs) == done;
    } else {
      FieldRoundTrip(f, done, xs[0]);
      SetAllConcat(Part(f, done), PairsOfField(f, xs[0]), PairsOfFields(f, xs[1..]), FilterSet);
      FieldsRoundTrip(f, done + {xs[0]}, xs[1..]);
      assert done + {xs[0]} + (set x | x in xs[1..]) == done + set x | x in xs;
    }
  }

  lemma AllFieldsArePrinted(x: Field)
    ensures x in PRINT_ORDER
  {
    var i :=
      match x
      case FlagField(FfDedicated) => 0 case FlagField(FfSecure) => 1 case GamedirField => 2 case MapField => 4
      case FlagField(FfEmpty) => 5 case FlagField(FfFull) => 6 case FlagField(FfPassword) => 7
      case FlagField(FfNoPlayers) => 8 case ClverField => 9 case FlagField(FfNat) => 10 case FlagField(FfLan) => 11
      case FlagField(FfBots) => 12 case KeyField => 13 case ProtocolField => 14 case BuildnumField => 15
      case OsField => 16 case ArchField => 17 case BranchField => 18 case CommitField => 19;
    assert PRINT_ORDER[i] == x;
  }

  /** All fields together carry the whole filter. */
  lemma WholePart(f: Filter, xs: set<Field>)
    requires forall x: Field {:trigger x in xs} :: x in xs
    ensures Part(f, xs) == f && Part(f, {}) == DEFAULT
  {
    assert (set g | g in f.flags && FlagField(g) in xs) == f.flags;
    assert (set g | g in f.mask && FlagField(g) in xs) == f.mask;
  }

  lemma FlagNamesArePlain(flag: FilterFlag)
    ensures AllPrintable(Name(FlagField(flag)))
  {
    match flag
    case FfDedicated => LowerIsPlain("dedicated");
    case FfSecure => LowerIsPlain("secure");
    case FfPassword => LowerIsPlain("password");
    case FfEmpty => LowerIsPlain("empty");
    case FfFull => LowerIsPlain("full");
    case FfNoPlayers => LowerIsPlain("noplayers");
    case FfNat => LowerIsPlain("nat");
    case FfLan => LowerIsPlain("lan");
    case FfBots => LowerIsPlain("bots");
  }

  lemma NamesArePlain(x: Field)
    ensures AllPrintable(Name(x))
  {
    match x
    case FlagField(flag) => FlagNamesArePlain(flag);
    case GamedirField => LowerIsPlain("gamedir");
    case MapField => LowerIsPlain("map");
    case ClverField => LowerIsPlain("clver");
    case ProtocolField => LowerIsPlain("protocol");
    case BuildnumField => LowerIsPlain("buildnum");
    case KeyField => LowerIsPlain("key");
    case OsField => LowerIsPlain("os");
    case ArchField => LowerIsPlain("arch");
    case BranchField => LowerIsPlain("branch");
    case CommitField => LowerIsPlain("commit");
  }

  /** Printed values are printable and free of backslashes. */
  lemma FieldTextIsPlain(f: Filter, x: Field)
    requires HasPlainText(f) && FieldText(f, x).Some?
    ensures AllPrintable(FieldText(f, x).value) && IsMapStr(FieldText(f, x).value)
  {
    match x
    case ClverField => PrintedVersionIsPlain(f.clver.value);
    case ProtocolField => PrintIsDigits(f.protocol.value, 10); DigitsArePlain(Print(f.protocol.value, 10));
    case BuildnumField => PrintIsDigits(f.buildnum.value, 10); DigitsArePlain(Print(f.buildnum.value, 10));
    case KeyField => PrintIsDigits(f.key.value, 16); DigitsArePlain(Print(f.key.value, 16));
    case FlagField(_) =>
    case _ => PlainTexts(f);
  }

  lemma PlainTexts(f: Filter)
    requires HasPlainText(f)
    ensures TextOf(f.gamedir) == f.gamedir && TextOf(f.map_) == f.map_ && TextOf(f.os) == f.os
    ensures TextOf(f.arch) == f.arch && TextOf(f.branch) == f.branch && TextOf(f.commit) == f.commit
  {
    PlainTextIsKept(f.gamedir);
    PlainTextIsKept(f.map_);
    PlainTextIsKept(f.os);
    PlainTextIsKept(f.arch);
    PlainTextIsKept(f.branch);
    PlainTextIsKept(f.commit);
  }

  lemma DigitsArePlain(s: bytes)
    requires IsDigitText(s)
    ensures AllPrintable(s)
  {
    forall i | 0 <= i < |s|
      ensures IsPrintable(s[i])
    {
      assert s[i] in s;
    }
  }

  lemma PrintedVersionIsPlain(v: Version)
    ensures AllPrintable(PrintVersion(v))
  {
    PrintIsDigits(v.major, 10);
    PrintIsDigits(v.minor, 10);
    PrintIsDigits(v.patch, 10);
    var s := PrintVersion(v);
    forall i | 0 <= i < |s|
      ensures IsPrintable(s[i])
    {
      assert s[i] in s;
    }
  }

  lemma {:induction false} PairsAreMapStr(f: Filter, xs: seq<Field>)
    requires HasPlainText(f)
    ensures AllMapStr(PairsOfFields(f, xs))
    decreases |xs|
  {
    if xs != [] {
      PairsAreMapStr(f, xs[1..]);
      NamesArePlain(xs[0]);
      if FieldText(f, xs[0]).Some? {
        FieldTextIsPlain(f, xs[0]);
      }
    }
  }

  /** Main result: a filter with plain text fields and flags within its mask survives printing. */
  lemma ParseInvertsPrintFilter(f: Filter)
    requires HasPlainText(f) && f.flags <= f.mask
    ensures ParseFilter(PrintFilter(f)) == Ok(f)
  {
    var ps := PairsOfFields(f, PRINT_ORDER);
    PrintedIsSerialized(f, PRINT_ORDER);
    PairsAreMapStr(f, PRINT_ORDER);
    SerializeRoundTrip(ps);
    DecodeIsSetAll(DEFAULT, FromSlice(Serialize(ps)).value, FilterSet);
    AllPairsRoundTrip(f);
  }

  lemma AllPairsRoundTrip(f: Filter)
    requires HasPlainText(f) && f.flags <= f.mask
    ensures SetAll(DEFAULT, PairsOfFields(f, PRINT_ORDER), FilterSet) == Ok(f)
  {
    FieldsRoundTrip(f, {}, PRINT_ORDER);
    var xs := {} + set x | x in PRINT_ORDER;
    forall x: Field {:trigger x in xs}
      ensures x in xs
    {
      AllFieldsArePrinted(x);
    }
    WholePart(f, xs);
  }

  predicate Masked(f: Filter) {
    f.flags <= f.mask
  }

  /** Every successful parse yields flags within the mask. */
  lemma ParsedFlagsAreMasked(src: bytes)
    requires ParseFilter(src).Ok?
    ensures ParseFilter(src).value.flags <= ParseFilter(src).value.mask
  {
    var body := FromSlice(src).value;
    DecodedHasPairs(DEFAULT, body, FilterSet);
    DecodeIsSetAll(DEFAULT, body, FilterSet);
    SetAllPreserves(DEFAULT, Pairs(body).value, FilterSet, Masked, _ => true);
  }

  /** Characters of a printed filter: printable ones and backslashes. */
  predicate OnlyPrinted(s: bytes) {
    forall c | c in s :: IsPrintable(c) || c == BACKSLASH
  }

  lemma FieldPrintsOnlyPrinted(f: Filter, x: Field)
    ensures OnlyPrinted(PrintField(f, x))
  {
    NamesArePlain(x);
    match x
    case FlagField(_) =>
    case ClverField => if f.clver.Some? { PrintedVersionIsPlain(f.clver.value); }
    case ProtocolField => if f.protocol.Some? { PrintIsDigits(f.protocol.value, 10); }
    case BuildnumField => if f.buildnum.Some? { PrintIsDigits(f.buildnum.value, 10); }
    case KeyField => if f.key.Some? { PrintIsDigits(f.key.value, 16); }
    case GamedirField => EscapedText(f.gamedir);
    case MapField => EscapedText(f.map_);
    case OsField => EscapedText(f.os);
    case ArchField => EscapedText(f.arch);
    case BranchField => EscapedText(f.branch);
    case CommitField => EscapedText(f.commit);
  }

  lemma EscapedText(s: Option<bytes>)
    ensures TextOf(s).Some? ==> OnlyPrinted(TextOf(s).value)
  {
    if s.Some? {
      EscapedIsClean(s.value);
    }
  }

  lemma {:induction false} PrintsOnlyPrinted(f: Filter, xs: seq<Field>)
    ensures OnlyPrinted(PrintFields(f, xs))
    decreases |xs|
  {
    if xs != [] {
      FieldPrintsOnlyPrinted(f, xs[0]);
      PrintsOnlyPrinted(f, xs[1..]);
    }
  }

  lemma SetKeepsPlainText(f: Filter, k: bytes, v: bytes)
    requires HasPlainText(f) && AllPrintable(v) && FilterSet(f, k, v).Ok?
    ensures HasPlainText(FilterSet(f, k, v).value)
  {
    var field := FieldOf(k);
    if field.Some? {
      SetFieldKeepsPlainText(f, field.value, v);
    }
  }

  lemma SetFieldKeepsPlainText(f: Filter, x: Field, v: bytes)
    requires HasPlainText(f) && AllPrintable(v) && SetField(f, x, v).Ok?
    ensures HasPlainText(SetField(f, x, v).value)
  {
  }

  /** A filter read from printable characters has plain text fields. */
  lemma ParsedTextIsPlain(src: bytes)
    requires OnlyPrinted(src) && ParseFilter(src).Ok?
    ensures HasPlainText(ParseFilter(src).value)
  {
    var body := FromSlice(src).value;
    DecodedHasPairs(DEFAULT, body, FilterSet);
    DecodeIsSetAll(DEFAULT, body, FilterSet);
    AcceptedMapIsLossless(src);
    var ps := Pairs(body).value;
    forall p | p in ps
      ensures AllPrintable(p.value)
    {
      ValuesAreInside(ps, p);
    }
    forall f: Filter, k, v | HasPlainText(f) && AllPrintable(v) && FilterSet(f, k, v).Ok?
      ensures HasPlainText(FilterSet(f, k, v).value)
    {
      SetKeepsPlainText(f, k, v);
    }
    SetAllPreserves(DEFAULT, ps, FilterSet, HasPlainText, AllPrintable);
  }

  /** The exact domain of the round trip. */
  lemma PrintParseIffPlainAndMasked(f: Filter)
    ensures ParseFilter(PrintFilter(f)) == Ok(f) <==> HasPlainText(f) && f.flags <= f.mask
  {
    if HasPlainText(f) && f.flags <= f.mask {
      ParseInvertsPrintFilter(f);
    }
    if ParseFilter(PrintFilter(f)) == Ok(f) {
      ParsedFlagsAreMasked(PrintFilter(f));
      PrintsOnlyPrinted(f, PRINT_ORDER);
      ParsedTextIsPlain(PrintFilter(f));
    }
  }

  /** Parsing, printing and parsing again gives what the first parse gave, whenever that was plain text. */
  lemma ParsePrintParse(src: bytes)
    requires ParseFilter(src).Ok? && HasPlainText(ParseFilter(src).value)
    ensures ParseFilter(PrintFilter(ParseFilter(src).value)) == ParseFilter(src)
  {
    ParsedFlagsAreMasked(src);
    ParseInvertsPrintFilter(ParseFilter(src).value);
  }
}
