/** Printing and parsing versions (crates/xash3d-protocol/src/filter.rs). */
module VersionText {
  import opened Prelude
  import opened Types
  import opened Utf8
  import opened Numerals
  import opened MapIters

  const DOT: byte := 46
  const ZERO: byte := 48

  /** The patch is printed only when it is not zero. */
  function PrintVersion(v: Version): bytes {
    Print(v.major, 10) + [DOT] + (Print(v.minor, 10) + if v.patch == 0 then [] else [DOT] + Print(v.patch, 10))
  }

  /** The text before the first dot and the text behind it, "0" if there is none. */
  function SplitDot(s: bytes): (bytes, bytes) {
    var i := Find(s, DOT);
    if i == |s| then (s, [ZERO]) else (s[..i], s[i + 1..])
  }

  function ParseVersion(s: bytes): Result<Version, CursorError> {
    if !IsUtf8(s) then Err(InvalidString) else
    var (major, tail) := SplitDot(s);
    var (minor, patch) := SplitDot(tail);
    var a, b, c := Parse(major, 10, 255), Parse(minor, 10, 255), Parse(patch, 10, 255);
    if a.None? || b.None? || c.None? then Err(InvalidNumber)
    else
      ReadIsBounded(major, 10, 255);
      ReadIsBounded(minor, 10, 255);
      ReadIsBounded(patch, 10, 255);
      Ok(Version(a.value, b.value, c.value))
  }

  lemma SplitDotAt(a: bytes, b: bytes)
    requires DOT !in a
    ensures SplitDot(a + [DOT] + b) == (a, b) && SplitDot(a) == (a, [ZERO])
  {
    FindAt(a, DOT, b);
    assert (a + [DOT] + b)[..|a|] == a && (a + [DOT] + b)[|a| + 1..] == b;
  }

  /** A number that fits a byte. */
  function ParseByte(s: bytes): Option<byte> {
    ReadIsBounded(s, 10, 255);
    var n := Parse(s, 10, 255);
    if n.Some? then Some(n.value) else None
  }

  function VersionOf(a: Option<byte>, b: Option<byte>, c: Option<byte>): Result<Version, CursorError> {
    if a.None? || b.None? || c.None? then Err(InvalidNumber) else Ok(Version(a.value, b.value, c.value))
  }

  /** The numbers are what two splits leave. */
  lemma ParseVersionOf(s: bytes, major: bytes, tail: bytes, minor: bytes, patch: bytes)
    requires IsUtf8(s) && SplitDot(s) == (major, tail) && SplitDot(tail) == (minor, patch)
    ensures ParseVersion(s) == VersionOf(ParseByte(major), ParseByte(minor), ParseByte(patch))
  {
  }

  /** One number, two or three with dots between them; those that are left out are 0. */
  lemma ParseMajor(a: bytes)
    requires DOT !in a && IsUtf8(a)
    ensures ParseVersion(a) == VersionOf(ParseByte(a), Some(0), Some(0))
  {
    SplitDotAt(a, []);
    SplitDotAt([ZERO], []);
    ZeroIsRead();
    ParseVersionOf(a, a, [ZERO], [ZERO], [ZERO]);
  }

  lemma ParseMinor(a: bytes, b: bytes)
    requires DOT !in a && DOT !in b && IsUtf8(a + [DOT] + b)
    ensures ParseVersion(a + [DOT] + b) == VersionOf(ParseByte(a), ParseByte(b), Some(0))
  {
    SplitDotAt(a, b);
    SplitDotAt(b, []);
    ZeroIsRead();
    ParseVersionOf(a + [DOT] + b, a, b, b, [ZERO]);
  }

  lemma ParsePatch(a: bytes, b: bytes, c: bytes)
    requires DOT !in a && DOT !in b && IsUtf8(a + [DOT] + (b + [DOT] + c))
    ensures ParseVersion(a + [DOT] + (b + [DOT] + c))
         == VersionOf(ParseByte(a), ParseByte(b), ParseByte(c))
  {
    SplitDotAt(a, b + [DOT] + c);
    SplitDotAt(b, c);
    ParseVersionOf(a + [DOT] + (b + [DOT] + c), a, b + [DOT] + c, b, c);
  }

  lemma ZeroIsRead()
    ensures Parse([ZERO], 10, 255) == Some(0)
  {
    assert ReadDigits([], 10, 255) == Some(0) && [ZERO][..0] == [];
  }

  lemma PrintedVersionIsAscii(v: Version)
    ensures forall c | c in PrintVersion(v) :: c < 0x80 && c != BACKSLASH && c != NUL
  {
    PrintIsDigits(v.major, 10);
    PrintIsDigits(v.minor, 10);
    PrintIsDigits(v.patch, 10);
  }

  lemma SplitPrinted(v: Version)
    ensures var (major, tail) := SplitDot(PrintVersion(v));
            var (minor, patch) := SplitDot(tail);
            && major == Print(v.major, 10) && minor == Print(v.minor, 10)
            && patch == if v.patch == 0 then [ZERO] else Print(v.patch, 10)
  {
    PrintIsDigits(v.major, 10);
    PrintIsDigits(v.minor, 10);
    var minor, patch := Print(v.minor, 10), Print(v.patch, 10);
    var tail := minor + if v.patch == 0 then [] else [DOT] + patch;
    SplitDotAt(Print(v.major, 10), tail);
    SplitDotAt(minor, patch);
    assert tail == if v.patch == 0 then minor else minor + [DOT] + patch;
  }

  lemma ParseInvertsPrintVersion(v: Version)
    ensures ParseVersion(PrintVersion(v)) == Ok(v)
  {
    PrintedVersionIsAscii(v);
    AsciiIsUtf8(PrintVersion(v));
    SplitPrinted(v);
    ParseOfPrint(v.major, 10, 255);
    ParseOfPrint(v.minor, 10, 255);
    ParseOfPrint(v.patch, 10, 255);
    assert Print(0, 10) == [ZERO];
  }
}
