/** Printing and parsing unsigned integers as Rust's Display, LowerHex, FromStr and from_str_radix do. */
module Numerals {
  import opened Prelude
  import opened Utf8

  const PLUS: byte := 43

  predicate Radix(radix: int) {
    radix == 10 || radix == 16
  }

  function DigitChar(d: int): byte
    requires 0 <= d < 16
  {
    if d < 10 then 48 + d else 87 + d
  }

  /** Digits of either case are read; only lower-case ones are printed. */
  function DigitValue(c: byte, radix: int): Option<nat>
    requires Radix(radix)
  {
    if 48 <= c <= 57 then Some(c - 48)
    else if radix == 16 && 97 <= c <= 102 then Some(c - 87)
    else if radix == 16 && 65 <= c <= 70 then Some(c - 55)
    else None
  }

  function Print(n: nat, radix: int): (s: bytes)
    requires Radix(radix)
    ensures s != []
  {
    if n < radix then [DigitChar(n)] else Print(n / radix, radix) + [DigitChar(n % radix)]
  }

  /** The value read from the left; None as soon as a character is no digit or the value exceeds `max`. */
  function ReadDigits(s: bytes, radix: int, max: nat): Option<nat>
    requires Radix(radix)
  {
    if s == [] then Some(0) else
    var last := |s| - 1;
    var high := ReadDigits(s[..last], radix, max);
    var low := DigitValue(s[last], radix);
    if high.None? || low.None? || high.value * radix + low.value > max then None
    else Some(high.value * radix + low.value)
  }

  /** One leading plus sign is allowed, an empty numeral is not. */
  function Parse(s: bytes, radix: int, max: nat): Option<nat>
    requires Radix(radix)
  {
    var digits := if s != [] && s[0] == PLUS then s[1..] else s;
    if digits == [] then None else ReadDigits(digits, radix, max)
  }

  /** Parsing a map value: text that is not UTF-8 is a different error from a bad numeral. */
  function ParseNumber(s: bytes, radix: int, max: nat): (r: Result<nat, CursorError>)
    requires Radix(radix)
    ensures r.Ok? ==> r.value <= max
  {
    if !IsUtf8(s) then Err(InvalidString) else
    var n := Parse(s, radix, max);
    ReadIsBounded(s, radix, max);
    if n.Some? then Ok(n.value) else Err(InvalidNumber)
  }

  /** `c` is the digit `d`: one of 0 to 9, or a letter of either case. */
  predicate IsDigit(c: byte, d: nat) {
    if d < 10 then c == '0' as int + d else c == 'a' as int + d - 10 || c == 'A' as int + d - 10
  }

  lemma DigitValueIff(c: byte, radix: int, d: nat)
    requires Radix(radix)
    ensures DigitValue(c, radix) == Some(d) <==> d < radix && IsDigit(c, d)
  {
  }

  /** The number that a text of digits stands for. */
  function Value(s: bytes, radix: int): nat
    requires Radix(radix)
  {
    if s == [] then 0 else
    Value(Front(s), radix) * radix + if DigitValue(Last(s), radix).Some? then DigitValue(Last(s), radix).value else 0
  }

  predicate IsDigitOf(c: byte, radix: int) {
    exists d: nat | d < radix :: IsDigit(c, d)
  }

  predicate AllDigits(s: bytes, radix: int)
    requires Radix(radix)
  {
    forall c | c in s :: IsDigitOf(c, radix)
  }

  lemma DigitsAreRead(c: byte, radix: int)
    requires Radix(radix)
    ensures DigitValue(c, radix).Some? <==> IsDigitOf(c, radix)
  {
    if DigitValue(c, radix).Some? {
      DigitValueIff(c, radix, DigitValue(c, radix).value);
    }
    if d: nat :| d < radix && IsDigit(c, d) {
      DigitValueIff(c, radix, d);
    }
  }

  lemma LastDigit(s: bytes, radix: int)
    requires Radix(radix) && s != []
    ensures Value(Front(s), radix) <= Value(s, radix)
    ensures AllDigits(s, radix) <==> AllDigits(Front(s), radix) && IsDigitOf(Last(s), radix)
  {
    assert forall c :: c in s <==> c in Front(s) || c == Last(s);
  }

  /** Giving up as soon as the value exceeds the limit is right: it never gets smaller again. */
  lemma {:induction false} ReadDigitsIff(s: bytes, radix: int, max: nat, n: nat)
    requires Radix(radix)
    ensures ReadDigits(s, radix, max) == Some(n) <==>
              AllDigits(s, radix) && Value(s, radix) == n && (s == [] || n <= max)
    decreases |s|
  {
    if s != [] {
      var front := Front(s);
      var high := ReadDigits(front, radix, max);
      ReadDigitsIff(front, radix, max, if high.Some? then high.value else Value(front, radix));
      DigitsAreRead(Last(s), radix);
      LastDigit(s, radix);
    }
  }

  /** Exactly what is read as a number: digits of the radix, behind a plus sign or not, whose value fits. */
  lemma ParseIff(s: bytes, radix: int, max: nat, n: nat)
    requires Radix(radix)
    ensures Parse(s, radix, max) == Some(n) <==>
              var digits := if [PLUS] <= s then s[1..] else s;
              digits != [] && AllDigits(digits, radix) && Value(digits, radix) == n && n <= max
  {
    ReadDigitsIff(if [PLUS] <= s then s[1..] else s, radix, max, n);
  }

  lemma ReadIsBounded(s: bytes, radix: int, max: nat)
    requires Radix(radix)
    ensures Parse(s, radix, max).Some? ==> Parse(s, radix, max).value <= max
  {
  }

  predicate IsDigitText(s: bytes) {
    s != [] && forall c | c in s :: 48 <= c <= 57 || 97 <= c <= 102
  }

  lemma {:induction false} PrintIsDigits(n: nat, radix: int)
    requires Radix(radix)
    ensures IsDigitText(Print(n, radix))
  {
    if n >= radix {
      PrintIsDigits(n / radix, radix);
    }
  }

  lemma {:induction false} ReadInvertsPrint(n: nat, radix: int, max: nat)
    requires Radix(radix) && n <= max
    ensures ReadDigits(Print(n, radix), radix, max) == Some(n)
  {
    var s := Print(n, radix);
    if n < radix {
      assert s[..0] == [];
    } else {
      ReadInvertsPrint(n / radix, radix, max);
      assert s[..|s| - 1] == Print(n / radix, radix);
      assert n == n / radix * radix + n % radix;
    }
  }

  lemma ParseOfPrint(n: nat, radix: int, max: nat)
    requires Radix(radix) && n <= max
    ensures Parse(Print(n, radix), radix, max) == Some(n)
  {
    PrintIsDigits(n, radix);
    ReadInvertsPrint(n, radix, max);
    assert Print(n, radix)[0] in Print(n, radix);
  }

  /** What is printed in a radix parses back in that radix. */
  lemma ParseInvertsPrint(n: nat, radix: int, max: nat)
    requires Radix(radix) && n <= max
    ensures ParseNumber(Print(n, radix), radix, max) == Ok(n)
  {
    PrintIsDigits(n, radix);
    AsciiIsUtf8(Print(n, radix));
    ParseOfPrint(n, radix, max);
  }
}
