/** Printing arbitrary bytes as text (crates/xash3d-protocol/src/wrappers.rs). */
module Escape {
  import opened Prelude

  const TAB: byte := 9

  predicate IsPrintable(c: byte) {
    c != BACKSLASH && 32 <= c <= 126
  }

  predicate AllPrintable(s: bytes) {
    forall i | 0 <= i < |s| :: IsPrintable(s[i])
  }

  lemma LowerIsPlain(s: string)
    requires forall i | 0 <= i < |s| :: 'a' <= s[i] <= 'z'
    ensures AllPrintable(Ascii(s))
  {
  }

  /** The lower-case hexadecimal digit of `n`. */
  function HexDigit(n: int): byte
    requires 0 <= n < 16
  {
    if n < 10 then 48 + n else 87 + n
  }

  /** The escape of a byte that is not printed as itself. */
  function EscapeOther(c: byte): bytes {
    match c
    case 92 => [BACKSLASH, BACKSLASH]
    case 10 => [BACKSLASH, 110]
    case 9 => [BACKSLASH, 116]
    case _ => [BACKSLASH, 120, HexDigit(c / 16), HexDigit(c % 16)]
  }

  function EscapeByte(c: byte): bytes {
    if IsPrintable(c) then [c] else EscapeOther(c)
  }

  /** The definition: every byte on its own. */
  function EscapeBytes(s: bytes): bytes {
    if s == [] then [] else EscapeByte(s[0]) + EscapeBytes(s[1..])
  }

  lemma {:induction false} EscapeConcat(a: bytes, b: bytes)
    ensures EscapeBytes(a + b) == EscapeBytes(a) + EscapeBytes(b)
  {
    if a == [] {
      assert a + b == b;
    } else {
      EscapeConcat(a[1..], b);
      assert (a + b)[0] == a[0] && (a + b)[1..] == a[1..] + b;
      Assoc(EscapeByte(a[0]), EscapeBytes(a[1..]), EscapeBytes(b));
    }
  }

  /** Printing leaves printable text without backslashes alone. */
  lemma {:induction false} PrintableIsUnchanged(s: bytes)
    requires AllPrintable(s)
    ensures EscapeBytes(s) == s
  {
    if s != [] {
      PrintableIsUnchanged(s[1..]);
    }
  }

  /** Where the run of printable bytes that contains `i` ends. */
  method FindUnprintable(s: bytes, i: nat) returns (e: nat)
    requires i < |s| && IsPrintable(s[i])
    ensures i < e <= |s| && forall k | i <= k < e :: IsPrintable(s[k])
    ensures e < |s| ==> !IsPrintable(s[e])
  {
    e := i + 1;
    while e < |s| && IsPrintable(s[e])
      invariant i < e <= |s| && forall k | i <= k < e :: IsPrintable(s[k])
    {
      e := e + 1;
    }
  }

  lemma EscapeRun(s: bytes, i: nat, e: nat)
    requires i <= e <= |s| && forall k | i <= k < e :: IsPrintable(s[k])
    ensures EscapeBytes(s[..e]) == EscapeBytes(s[..i]) + s[i..e]
  {
    assert s[..e] == s[..i] + s[i..e];
    EscapeConcat(s[..i], s[i..e]);
    PrintableIsUnchanged(s[i..e]);
  }

  lemma EscapeNext(s: bytes, i: nat)
    requires i < |s|
    ensures EscapeBytes(s[..i + 1]) == EscapeBytes(s[..i]) + EscapeByte(s[i])
  {
    assert s[..i + 1] == s[..i] + [s[i]];
    EscapeConcat(s[..i], [s[i]]);
    assert EscapeBytes([s[i]]) == EscapeByte(s[i]) + EscapeBytes([]);
  }

  /** The loop of the source, which copies a whole run of printable bytes at a time, then escapes the
      byte that ended the run. */
  method FormatBytes(s: bytes) returns (out: bytes)
    ensures out == EscapeBytes(s)
  {
    out := [];
    var i := 0;
    while i < |s|
      invariant 0 <= i <= |s| && out == EscapeBytes(s[..i])
    {
      if IsPrintable(s[i]) {
        var e := FindUnprintable(s, i);
        EscapeRun(s, i, e);
        out := out + s[i..e];
        i := e;
        if e == |s| {
          break;
        }
      }
      EscapeNext(s, i);
      out := out + EscapeOther(s[i]);
      i := i + 1;
    }
    assert s[..i] == s;
  }

  function HexValue(c: byte): int
  {
    if 48 <= c <= 57 then c - 48 else if 97 <= c <= 102 then c - 87 else 0
  }

  /** Reads one escaped byte: the byte and how much text it took. */
  function UnescapeOne(t: bytes): (r: (byte, nat))
    requires t != []
    ensures 0 < r.1 <= |t|
  {
    if t[0] != BACKSLASH || |t| == 1 then (t[0], 1)
    else match t[1]
      case 110 => (NEWLINE, 2)
      case 116 => (TAB, 2)
      case 120 => if |t| < 4 then (BACKSLASH, 1) else (HexValue(t[2]) * 16 + HexValue(t[3]), 4)
      case _ => (BACKSLASH, 2)
  }

  function Unescape(t: bytes): bytes {
    if t == [] then [] else
    var (c, n) := UnescapeOne(t);
    [c] + Unescape(t[n..])
  }

  lemma HexRoundTrip(n: int)
    requires 0 <= n < 16
    ensures HexValue(HexDigit(n)) == n
  {
  }

  lemma UnescapeFirst(c: byte, rest: bytes)
    ensures UnescapeOne(EscapeByte(c) + rest) == (c, |EscapeByte(c)|)
    ensures (EscapeByte(c) + rest)[|EscapeByte(c)|..] == rest
  {
    HexRoundTrip(c / 16);
    HexRoundTrip(c % 16);
  }

  /** Nothing is lost: printing can be undone. */
  lemma {:induction false} UnescapeInvertsEscape(s: bytes)
    ensures Unescape(EscapeBytes(s)) == s
  {
    if s != [] {
      UnescapeFirst(s[0], EscapeBytes(s[1..]));
      UnescapeInvertsEscape(s[1..]);
    }
  }

  lemma EscapeIsInjective(s: bytes, t: bytes)
    requires EscapeBytes(s) == EscapeBytes(t)
    ensures s == t
  {
    UnescapeInvertsEscape(s);
    UnescapeInvertsEscape(t);
  }

  /** Printed text is always printable, and backslash-free exactly when nothing had to be escaped. */
  lemma {:induction false} EscapedIsClean(s: bytes)
    ensures forall c | c in EscapeBytes(s) :: ' ' as int <= c <= '~' as int
    ensures AllPrintable(EscapeBytes(s)) <==> AllPrintable(s)
  {
    if s != [] {
      EscapedIsClean(s[1..]);
      var e, rest := EscapeByte(s[0]), EscapeBytes(s[1..]);
      assert AllPrintable(s) <==> IsPrintable(s[0]) && AllPrintable(s[1..]) by {
        assert forall i | 0 < i < |s| :: s[i] == s[1..][i - 1];
      }
      assert AllPrintable(e + rest) <==> AllPrintable(e) && AllPrintable(rest) by {
        assert forall i | 0 <= i < |e| :: (e + rest)[i] == e[i];
        assert forall i | 0 <= i < |rest| :: (e + rest)[|e| + i] == rest[i];
      }
      assert AllPrintable(e) <==> IsPrintable(s[0]) by {
        assert !IsPrintable(s[0]) ==> !IsPrintable(e[0]);
      }
    }
  }

  lemma {:induction false} EscapeGrows(s: bytes)
    ensures |EscapeBytes(s)| >= |s|
    ensures |EscapeBytes(s)| == |s| <==> AllPrintable(s)
  {
    if s != [] {
      EscapeGrows(s[1..]);
      assert AllPrintable(s) <==> IsPrintable(s[0]) && AllPrintable(s[1..]) by {
        assert forall i | 0 < i < |s| :: s[i] == s[1..][i - 1];
      }
    }
  }

  /** Only printable text without backslashes is printed as itself. */
  lemma UnchangedIffPrintable(s: bytes)
    ensures EscapeBytes(s) == s <==> AllPrintable(s)
    ensures AllPrintable(s) <==> forall c | c in s :: ' ' as int <= c <= '~' as int && c != '\\' as int
  {
    EscapeGrows(s);
    if AllPrintable(s) {
      PrintableIsUnchanged(s);
      forall c | c in s
        ensures IsPrintable(c)
      {
        var i :| 0 <= i < |s| && s[i] == c;
      }
    } else {
      var i :| 0 <= i < |s| && !IsPrintable(s[i]);
      assert s[i] in s;
    }
  }

  /** The escapes, byte by byte: letters for newline and tab, two backslashes for one, and two lower-case
      hexadecimal digits behind an x for every other byte. */
  lemma EscapesAsDocumented(c: byte)
    ensures EscapeByte(10) == ['\\' as int, 'n' as int] && EscapeByte(9) == ['\\' as int, 't' as int]
    ensures EscapeByte(92) == ['\\' as int, '\\' as int]
    ensures !(32 <= c <= 126) && c != 9 && c != 10 ==>
              exists high, low | 0 <= high < 16 && 0 <= low < 16 ::
                c == 16 * high + low && EscapeByte(c) == ['\\' as int, 'x' as int, LowerHex(high), LowerHex(low)]
  {
    if !(32 <= c <= 126) && c != 9 && c != 10 {
      assert c == 16 * (c / 16) + c % 16;
      assert EscapeByte(c) == ['\\' as int, 'x' as int, LowerHex(c / 16), LowerHex(c % 16)];
    }
  }

  function LowerHex(n: int): byte
    requires 0 <= n < 16
  {
    if n < 10 then '0' as int + n else 'a' as int + n - 10
  }
}
