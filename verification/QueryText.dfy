/** The request for a server list (QueryServers in crates/xash3d-protocol/src/net/game.rs). */
module QueryText {
  import opened Prelude
  import opened Types
  import opened Cursors
  import opened Escape
  import FilterText
  import MapIters

  const HEADER: bytes := [49]

  function ReadRegion(s: bytes): Result<(Region, bytes), Error> {
    match ReadU8(s)
    case Err(e) => Err(CursorFailed(e))
    case Ok(r) =>
      match RegionOf(r.0)
      case Err(_) => Err(InvalidRegion)
      case Ok(region) => Ok((region, r.1))
  }

  function Decode(src: bytes): Result<ServerQuery, Error> {
    match ReadExpect(src, HEADER)
    case Err(e) => Err(CursorFailed(e))
    case Ok(r) =>
      var (region, s) :- ReadRegion(r.1);
      match ReadCstr(s)
      case Err(e) => Err(CursorFailed(e))
      case Ok(t) =>
        match TextToEnd(t.1)
        case Err(e) => Err(CursorFailed(e))
        case Ok(text) =>
          var filter :- FilterText.ParseFilter(text);
          Ok(ServerQuery(region, t.0, filter))
  }

  method DecodePacket(src: bytes) returns (r: Result<ServerQuery, Error>)
    ensures r == Decode(src)
  {
    var cur := new Cursor(src);
    var header := cur.ExpectBytes(HEADER);
    if header.Err? {
      return Err(CursorFailed(header.error));
    }
    var b := cur.GetU8();
    if b.Err? {
      return Err(CursorFailed(b.error));
    }
    var region := RegionOf(b.value);
    if region.Err? {
      return Err(InvalidRegion);
    }
    var last := cur.GetCstr();
    if last.Err? {
      return Err(CursorFailed(last.error));
    }
    var text := cur.GetTextToEnd();
    if text.Err? {
      return Err(CursorFailed(text.error));
    }
    var filter :- ParseFilter(text.value);
    r := Ok(ServerQuery(region.value, last.value, filter));
  }

  method ParseFilter(text: bytes) returns (r: Result<Filter, Error>)
    ensures r == FilterText.ParseFilter(text)
  {
    var body :- MapIters.FromSlice(text);
    var iter := new MapIters.MapIter(body);
    r := FilterText.FromMapIter(iter);
  }

  function Encode(q: ServerQuery): bytes {
    HEADER + ([RegionByte(q.region)] + (Cstr(EscapeBytes(q.last)) + Cstr(FilterText.PrintFilter(q.filter))))
  }

  method PutTexts(cur: CursorMut, q: ServerQuery) returns (r: Result<(), CursorError>)
    requires cur.Valid()
    modifies cur, cur.buffer
    ensures cur.Appended(Cstr(EscapeBytes(q.last)) + Cstr(FilterText.PrintFilter(q.filter)), r)
  {
    ghost var w := cur.Written();
    var text := FormatBytes(q.last);
    var _ :- cur.PutCstr(text);
    r := cur.PutCstr(FilterText.PrintFilter(q.filter));
    Assoc(w, Cstr(EscapeBytes(q.last)), Cstr(FilterText.PrintFilter(q.filter)));
  }

  method PutQuery(cur: CursorMut, q: ServerQuery) returns (r: Result<(), CursorError>)
    requires cur.Valid()
    modifies cur, cur.buffer
    ensures cur.Appended(Encode(q), r)
  {
    ghost var w, region := cur.Written(), [RegionByte(q.region)];
    ghost var texts := Cstr(EscapeBytes(q.last)) + Cstr(FilterText.PrintFilter(q.filter));
    var _ :- cur.PutBytes(HEADER);
    var _ :- cur.PutU8(RegionByte(q.region));
    r := PutTexts(cur, q);
    Assoc(w + HEADER, region, texts);
    Assoc(w, HEADER, region + texts);
  }

  /** The encoder succeeds exactly when the packet fits, and then the buffer starts with it. */
  method EncodePacket(q: ServerQuery, buffer: array<byte>) returns (r: Result<nat, Error>)
    modifies buffer
    ensures r.Ok? <==> |Encode(q)| <= buffer.Length
    ensures r.Err? ==> r.error == CursorFailed(BufferOverflow)
    ensures r.Ok? ==> r.value <= buffer.Length && buffer[..r.value] == Encode(q)
  {
    var cur := new CursorMut(buffer);
    var put := PutQuery(cur, q);
    if put.Err? {
      return Err(CursorFailed(put.error));
    }
    assert buffer[..cur.Pos()] == cur.Written() == Encode(q);
    r := Ok(cur.Pos());
  }

  lemma RegionRoundTrip(region: Region, rest: bytes)
    ensures ReadRegion([RegionByte(region)] + rest) == Ok((region, rest))
  {
    ReadU8Of(RegionByte(region), rest);
  }

  lemma EscapedHasNoNul(s: bytes)
    ensures NUL !in EscapeBytes(s)
  {
    EscapedIsClean(s);
  }

  lemma PrintedHasNoNul(f: Filter)
    ensures NUL !in FilterText.PrintFilter(f)
  {
    FilterText.PrintsOnlyPrinted(f, FilterText.PRINT_ORDER);
  }

  /** What any packet of this shape decodes to: with the trailing NUL or without it. */
  lemma DecodeOf(region: Region, last: bytes, text: bytes, tail: bytes)
    requires NUL !in last && NUL !in text && tail in {[], [NUL]}
    ensures Decode(HEADER + ([RegionByte(region)] + (Cstr(last) + (text + tail))))
         == match FilterText.ParseFilter(text)
            case Ok(filter) => Ok(ServerQuery(region, last, filter))
            case Err(e) => Err(e)
  {
    ReadExpectOf(HEADER, [RegionByte(region)] + (Cstr(last) + (text + tail)));
    RegionRoundTrip(region, Cstr(last) + (text + tail));
    ReadCstrOf(last, text + tail);
    TextToEndOf(text);
    assert text + [] == text;
  }

  /** Why a query is rejected in front of its filter: a byte that is no region, no NUL behind the last address, or bytes
      behind the trailing NUL. */
  lemma BrokenQueries(b: byte, last: bytes, text: bytes, rest: bytes)
    requires NUL !in last && NUL !in text
    ensures 8 <= b < 255 ==> Decode([49] + ([b] + rest)) == Err(InvalidRegion)
    ensures !(8 <= b < 255) ==> Decode([49] + ([b] + last)) == Err(CursorFailed(NeedMoreBytes(1)))
    ensures !(8 <= b < 255) && rest != [] ==>
              Decode([49] + ([b] + (Cstr(last) + (Cstr(text) + rest)))) == Err(CursorFailed(ExpectEmpty))
  {
    RegionOfIff(b);
    ReadExpectOf(HEADER, [b] + rest);
    ReadExpectOf(HEADER, [b] + last);
    ReadExpectOf(HEADER, [b] + (Cstr(last) + (Cstr(text) + rest)));
    ReadU8Of(b, rest);
    ReadU8Of(b, last);
    ReadU8Of(b, Cstr(last) + (Cstr(text) + rest));
    ReadCstrOf(last, Cstr(text) + rest);
    assert ReadCstr(last) == Err(NeedMoreBytes(1));
    if rest != [] {
      TextToEndFails(text, rest);
    }
  }

  /** Clients that forget the trailing NUL are understood just as well, and rejected for the same reasons. */
  lemma NulIsOptional(region: Region, last: bytes, text: bytes)
    requires NUL !in last && NUL !in text
    ensures var start := [RegionByte(region)];
            Decode(HEADER + (start + (Cstr(last) + text))) == Decode(HEADER + (start + (Cstr(last) + Cstr(text))))
  {
    DecodeOf(region, last, text, []);
    DecodeOf(region, last, text, [NUL]);
    assert text + [] == text;
  }

  /** What an encoded query decodes to: the last address comes back escaped, the filter as its text parses. */
  lemma DecodeOfEncode(q: ServerQuery)
    ensures Decode(Encode(q))
         == match FilterText.ParseFilter(FilterText.PrintFilter(q.filter))
            case Ok(filter) => Ok(ServerQuery(q.region, EscapeBytes(q.last), filter))
            case Err(e) => Err(e)
  {
    EscapedHasNoNul(q.last);
    PrintedHasNoNul(q.filter);
    DecodeOf(q.region, EscapeBytes(q.last), FilterText.PrintFilter(q.filter), [NUL]);
  }

  /** Main result: the exact domain of the round trip. */
  lemma RoundTripIff(q: ServerQuery)
    ensures Decode(Encode(q)) == Ok(q) <==>
      AllPrintable(q.last) && FilterText.HasPlainText(q.filter) && q.filter.flags <= q.filter.mask
  {
    DecodeOfEncode(q);
    UnchangedIffPrintable(q.last);
    FilterText.PrintParseIffPlainAndMasked(q.filter);
  }
}
