/** Well-formed UTF-8, as str::from_utf8 decides it (RFC 3629, section 4). */
module Utf8 {
  import opened Prelude

  predicate Tail(b: byte) {
    0x80 <= b <= 0xbf
  }

  /** The second byte of a longer sequence, whose range depends on the first. */
  predicate Second(first: byte, b: byte) {
    match first
    case 0xe0 => 0xa0 <= b <= 0xbf
    case 0xed => 0x80 <= b <= 0x9f
    case 0xf0 => 0x90 <= b <= 0xbf
    case 0xf4 => 0x80 <= b <= 0x8f
    case _ => Tail(b)
  }

  predicate IsUtf8(s: bytes) {
    if s == [] then true
    else if s[0] < 0x80 then IsUtf8(s[1..])
    else if 0xc2 <= s[0] <= 0xdf then |s| >= 2 && Tail(s[1]) && IsUtf8(s[2..])
    else if 0xe0 <= s[0] <= 0xef then |s| >= 3 && Second(s[0], s[1]) && Tail(s[2]) && IsUtf8(s[3..])
    else if 0xf0 <= s[0] <= 0xf4 then
      |s| >= 4 && Second(s[0], s[1]) && Tail(s[2]) && Tail(s[3]) && IsUtf8(s[4..])
    else false
  }

  lemma AsciiIsUtf8(s: bytes)
    requires forall b | b in s :: b < 0x80
    ensures IsUtf8(s)
  {
    if s != [] {
      assert s[0] in s && forall b | b in s[1..] :: b in s;
      AsciiIsUtf8(s[1..]);
    }
  }

  // What it means

  /** A Unicode scalar value: a code point that is no surrogate. */
  predicate IsScalar(c: int) {
    0 <= c < 0xd800 || 0xe000 <= c < 0x11_0000
  }

  /** Its bytes, the fewest that hold it. */
  function Encode(c: int): bytes
    requires IsScalar(c)
  {
    if c < 0x80 then [c]
    else if c < 0x800 then [0xc0 + c / 0x40, 0x80 + c % 0x40]
    else if c < 0x1_0000 then [0xe0 + c / 0x1000, 0x80 + c / 0x40 % 0x40, 0x80 + c % 0x40]
    else [0xf0 + c / 0x4_0000, 0x80 + c / 0x1000 % 0x40, 0x80 + c / 0x40 % 0x40, 0x80 + c % 0x40]
  }

  function EncodeAll(cs: seq<int>): bytes
    requires forall c | c in cs :: IsScalar(c)
  {
    if cs == [] then [] else Encode(cs[0]) + EncodeAll(cs[1..])
  }

  lemma EncodedFirst(c: int, rest: bytes)
    requires IsScalar(c)
    ensures IsUtf8(Encode(c) + rest) <==> IsUtf8(rest)
  {
    assert (Encode(c) + rest)[|Encode(c)|..] == rest;
    if 0x800 <= c < 0x1_0000 {
      ThreeBytes(c);
    } else if c >= 0x1_0000 {
      FourBytes(c);
    }
  }

  lemma ThreeBytes(c: int)
    requires IsScalar(c) && 0x800 <= c < 0x1_0000
    ensures 0xe0 <= Encode(c)[0] <= 0xef && Second(Encode(c)[0], Encode(c)[1]) && Tail(Encode(c)[2])
  {
    assert c == 0x1000 * (c / 0x1000) + 0x40 * (c / 0x40 % 0x40) + c % 0x40;
  }

  lemma FourBytes(c: int)
    requires IsScalar(c) && c >= 0x1_0000
    ensures var e := Encode(c); 0xf0 <= e[0] <= 0xf4 && Second(e[0], e[1]) && Tail(e[2]) && Tail(e[3])
  {
    assert c == 0x4_0000 * (c / 0x4_0000) + 0x1000 * (c / 0x1000 % 0x40) + 0x40 * (c / 0x40 % 0x40) + c % 0x40;
  }

  /** The part of the value that a byte behind the first one holds. */
  function Low(b: byte): int {
    b - 0x80
  }

  lemma Digits(a: nat, b: int, c: int)
    requires 0 <= b < 0x40 && 0 <= c < 0x40
    ensures var n := 0x40 * (0x40 * a + b) + c; n / 0x1000 == a && n / 0x40 == 0x40 * a + b && n / 0x40 % 0x40 == b
    ensures (0x40 * (0x40 * a + b) + c) % 0x40 == c
  {
  }

  lemma DecodeTwo(s: bytes) returns (c: int)
    requires |s| >= 2 && 0xc2 <= s[0] <= 0xdf && Tail(s[1])
    ensures IsScalar(c) && Encode(c) == s[..2]
  {
    var first: int := s[0];
    c := 0x40 * (first - 0xc0) + Low(s[1]);
  }

  lemma DecodeThree(s: bytes) returns (c: int)
    requires |s| >= 3 && 0xe0 <= s[0] <= 0xef && Second(s[0], s[1]) && Tail(s[2])
    ensures IsScalar(c) && Encode(c) == s[..3]
  {
    var first: int := s[0];
    c := 0x40 * (0x40 * (first - 0xe0) + Low(s[1])) + Low(s[2]);
    Digits(first - 0xe0, Low(s[1]), Low(s[2]));
  }

  lemma DecodeFour(s: bytes) returns (c: int)
    requires |s| >= 4 && 0xf0 <= s[0] <= 0xf4 && Second(s[0], s[1]) && Tail(s[2]) && Tail(s[3])
    ensures IsScalar(c) && Encode(c) == s[..4]
  {
    var first: int := s[0];
    var high := 0x40 * (first - 0xf0) + Low(s[1]);
    c := 0x40 * (0x40 * high + Low(s[2])) + Low(s[3]);
    Digits(high, Low(s[2]), Low(s[3]));
    HighDigits(first - 0xf0, Low(s[1]), high, c);
  }

  lemma HighDigits(a: nat, b: int, high: nat, c: nat)
    requires 0 <= b < 0x40 && high == 0x40 * a + b && c / 0x1000 == high
    ensures c / 0x4_0000 == a && c / 0x1000 % 0x40 == b
  {
    assert c / 0x4_0000 == c / 0x1000 / 0x40;
  }

  /** The scalar value in front of a text. */
  lemma DecodeFirst(s: bytes) returns (c: int, rest: bytes)
    requires s != [] && IsUtf8(s)
    ensures IsScalar(c) && s == Encode(c) + rest && IsUtf8(rest) && |rest| < |s|
  {
    if s[0] < 0x80 {
      c, rest := s[0], s[1..];
    } else if s[0] <= 0xdf {
      c := DecodeTwo(s);
      rest := s[2..];
    } else if s[0] <= 0xef {
      c := DecodeThree(s);
      rest := s[3..];
    } else {
      c := DecodeFour(s);
      rest := s[4..];
    }
  }

  lemma {:induction false} EncodedIsUtf8(cs: seq<int>)
    requires forall c | c in cs :: IsScalar(c)
    ensures IsUtf8(EncodeAll(cs))
  {
    if cs != [] {
      EncodedIsUtf8(cs[1..]);
      EncodedFirst(cs[0], EncodeAll(cs[1..]));
    }
  }

  lemma {:induction false} DecodeAll(s: bytes) returns (cs: seq<int>)
    requires IsUtf8(s)
    ensures (forall c | c in cs :: IsScalar(c)) && EncodeAll(cs) == s
    decreases |s|
  {
    if s == [] {
      cs := [];
    } else {
      var c, rest := DecodeFirst(s);
      var more := DecodeAll(rest);
      cs := [c] + more;
      assert cs[1..] == more;
    }
  }

  /** Well-formed text is exactly what encoding scalar values gives. */
  lemma IsUtf8Iff(s: bytes)
    ensures IsUtf8(s) <==> exists cs | (forall c | c in cs :: IsScalar(c)) :: EncodeAll(cs) == s
  {
    if IsUtf8(s) {
      var cs := DecodeAll(s);
    }
    if cs :| (forall c | c in cs :: IsScalar(c)) && EncodeAll(cs) == s {
      EncodedIsUtf8(cs);
    }
  }
}
