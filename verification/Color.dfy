/** Colour codes in server names (crates/xash3d-protocol/src/color.rs). Text is a sequence of Unicode
    characters; the code characters are ASCII, so byte offsets and character offsets find the same codes. */
module Color {

  predicate IsColorCode(s: string) {
    |s| >= 2 && s[0] == '^' && '0' <= s[1] <= '9'
  }

  /** The definition: one pass from the left that drops each code where it stands. */
  function Strip(s: string): string {
    if s == [] then ""
    else if IsColorCode(s) then Strip(s[2..])
    else [s[0]] + Strip(s[1..])
  }

  /** Character by character: a caret goes together with a digit behind it, and everything else is kept. */
  lemma StripByCharacter(c: char, s: string)
    ensures '0' <= c <= '9' ==> Strip(['^', c] + s) == Strip(s)
    ensures !('0' <= c <= '9') ==> Strip(['^', c] + s) == "^" + Strip([c] + s)
    ensures c != '^' ==> Strip([c] + s) == [c] + Strip(s)
    ensures Strip("^") == "^"
  {
    assert (['^', c] + s)[2..] == s && (['^', c] + s)[1..] == [c] + s && ([c] + s)[1..] == s;
  }

  /** How many codes the pass drops. */
  function Codes(s: string): nat {
    if s == [] then 0
    else if IsColorCode(s) then 1 + Codes(s[2..])
    else Codes(s[1..])
  }

  /** Every character is either kept or belongs to a dropped code. */
  lemma {:induction false} LengthIsAccountedFor(s: string)
    ensures |s| == |Strip(s)| + 2 * Codes(s)
  {
    if s != [] {
      LengthIsAccountedFor(if IsColorCode(s) then s[2..] else s[1..]);
    }
  }

  /** What is left of a text behind its leading codes. */
  function SkipCodes(s: string): string {
    if IsColorCode(s) then SkipCodes(s[2..]) else s
  }

  /** The last of the codes that a text starts with; empty if there is none. */
  function LastCode(s: string): string {
    if !IsColorCode(s) then "" else if IsColorCode(s[2..]) then LastCode(s[2..]) else s[..2]
  }

  /** Returns the last of the leading codes, and the text behind them. */
  method TrimStartColor(s: string) returns (color: string, tail: string)
    ensures |tail| <= |s| && tail == s[|s| - |tail|..] && !IsColorCode(tail)
    ensures Strip(s) == Strip(tail) && |s| - |tail| == 2 * (Codes(s) - Codes(tail))
    ensures tail == SkipCodes(s) && color == LastCode(s)
  {
    var n := 0;
    while IsColorCode(s[n..])
      invariant 0 <= n <= |s| && n != 1
      invariant Strip(s) == Strip(s[n..]) && n == 2 * (Codes(s) - Codes(s[n..]))
      invariant SkipCodes(s) == SkipCodes(s[n..])
      invariant LastCode(s) == if IsColorCode(s[n..]) then LastCode(s[n..]) else if n > 0 then s[n - 2..n] else ""
      decreases |s| - n
    {
      assert s[n..][2..] == s[n + 2..];
      assert s[n..n + 2] == s[n..][..2];
      n := n + 2;
    }
    if n > 0 {
      color, tail := s[n - 2..n], s[n..];
    } else {
      color, tail := "", s;
    }
  }

  /** The first position that is followed by a code, or the end. */
  method FindColorCode(s: string) returns (offset: nat)
    ensures offset <= |s| && (offset < |s| ==> IsColorCode(s[offset..]))
    ensures forall i | 0 <= i < offset :: !IsColorCode(s[i..])
  {
    offset := 0;
    while offset < |s| && !IsColorCode(s[offset..])
      invariant offset <= |s| && forall i | 0 <= i < offset :: !IsColorCode(s[i..])
    {
      offset := offset + 1;
    }
  }

  /** Text in front of the next code is kept as it is. */
  lemma {:induction false} StripSkipsText(s: string, offset: nat)
    requires offset <= |s| && forall i | 0 <= i < offset :: !IsColorCode(s[i..])
    ensures Strip(s) == s[..offset] + Strip(s[offset..])
    ensures Codes(s) == Codes(s[offset..])
  {
    if offset == 0 {
      assert s[offset..] == s;
    } else {
      assert !IsColorCode(s[0..]) && s[0..] == s;
      forall i | 0 <= i < offset - 1
        ensures !IsColorCode(s[1..][i..])
      {
        assert s[1..][i..] == s[i + 1..];
      }
      StripSkipsText(s[1..], offset - 1);
      assert s[1..][offset - 1..] == s[offset..];
      assert s[..offset] == [s[0]] + s[1..][..offset - 1];
    }
  }

  class ColorIter {
    var inner: string

    constructor (s: string)
      ensures inner == s
    {
      inner := s;
    }

    /** One coloured part: the last of the codes in front of it, or none, and its text. The texts concatenate
        to the stripped text, and every call makes progress. */
    method Next() returns (part: (bool, string, string))
      modifies this
      ensures !part.0 ==> old(inner) == "" && inner == ""
      ensures part.0 ==> |inner| < |old(inner)| && Strip(old(inner)) == part.2 + Strip(inner)
      ensures part.0 ==> |old(inner)| - |inner| == |part.2| + 2 * (Codes(old(inner)) - Codes(inner))
      ensures part.0 ==> (inner == "" || IsColorCode(inner))
      ensures part.0 ==> part.1 == LastCode(old(inner))
    {
      if inner == "" {
        return (false, "", "");
      }
      var color, tail := TrimStartColor(inner);
      var offset := FindColorCode(tail);
      StripSkipsText(tail, offset);
      assert tail[0..] == tail;
      part := (true, color, tail[..offset]);
      inner := tail[offset..];
    }
  }

  lemma NoCaretNothingToStrip(s: string)
    requires '^' !in s
    ensures Strip(s) == s && Codes(s) == 0
  {
    if s != [] {
      assert s[0] in s && forall c | c in s[1..] :: c in s;
      NoCaretNothingToStrip(s[1..]);
    }
  }

  /** Both the shortcut for text without carets and the iterator drop exactly the codes that the pass
      from the left drops. */
  method TrimColor(s: string) returns (out: string)
    ensures out == Strip(s)
  {
    var _, tail := TrimStartColor(s);
    if '^' !in tail {
      NoCaretNothingToStrip(tail);
      return tail;
    }
    out := "";
    var it := new ColorIter(tail);
    while it.inner != ""
      invariant out + Strip(it.inner) == Strip(s)
      decreases |it.inner|
    {
      ghost var before := it.inner;
      var part := it.Next();
      assert out + (part.2 + Strip(it.inner)) == (out + part.2) + Strip(it.inner);
      out := out + part.2;
    }
    assert out + "" == out;
  }

  /** Dropping codes may put new ones together. */
  lemma StrippingTwiceCanDropMore()
    ensures Strip("^^11") == "^1" && Strip(Strip("^^11")) == ""
  {
    assert Strip("^^11") == "^" + Strip("^11") && "^11"[2..] == "1";
  }

  predicate StartsWithDigit(s: string) {
    s != [] && '0' <= s[0] <= '9'
  }

  /** A caret that codes keep apart from a digit: dropping the codes makes a new code of the two. */
  predicate RejoinsAt(s: string, i: nat)
    requires i < |s|
  {
    s[i] == '^' && IsColorCode(s[i + 1..]) && StartsWithDigit(SkipCodes(s[i + 1..]))
  }

  predicate Rejoins(s: string) {
    exists i | 0 <= i < |s| :: RejoinsAt(s, i)
  }

  predicate HasCode(s: string) {
    exists i | 0 <= i < |s| :: IsColorCode(s[i..])
  }

  lemma {:induction false} StripStartsLikeTheRest(s: string)
    ensures StartsWithDigit(Strip(s)) <==> StartsWithDigit(SkipCodes(s))
  {
    if IsColorCode(s) {
      StripStartsLikeTheRest(s[2..]);
    }
  }

  lemma HasCodeFirst(c: char, t: string)
    ensures HasCode([c] + t) <==> HasCode(t) || (c == '^' && StartsWithDigit(t))
  {
    var s := [c] + t;
    assert forall i | 0 <= i < |t| :: s[i + 1..] == t[i..];
    assert s[0..] == s;
    if HasCode(t) {
      var i :| 0 <= i < |t| && IsColorCode(t[i..]);
      assert IsColorCode(s[i + 1..]);
    }
    if HasCode(s) && !(c == '^' && StartsWithDigit(t)) {
      var i :| 0 <= i < |s| && IsColorCode(s[i..]);
      assert i > 0 && s[i..] == t[i - 1..];
    }
  }

  lemma RejoinsFirst(s: string)
    requires s != []
    ensures Rejoins(s) <==> Rejoins(s[1..]) || RejoinsAt(s, 0)
  {
    var t := s[1..];
    forall i | 0 <= i < |t|
      ensures RejoinsAt(t, i) <==> RejoinsAt(s, i + 1)
    {
      assert t[i + 1..] == s[i + 2..];
    }
    if Rejoins(s) && !RejoinsAt(s, 0) {
      var i :| 0 <= i < |s| && RejoinsAt(s, i);
      assert RejoinsAt(t, i - 1);
    }
  }

  lemma {:induction false} CodesAppearIffRejoined(s: string)
    ensures HasCode(Strip(s)) <==> Rejoins(s)
  {
    if s != [] {
      RejoinsFirst(s);
      if IsColorCode(s) {
        RejoinsFirst(s[1..]);
        assert s[1..][1..] == s[2..];
        CodesAppearIffRejoined(s[2..]);
      } else {
        CodesAppearIffRejoined(s[1..]);
        HasCodeFirst(s[0], Strip(s[1..]));
        StripStartsLikeTheRest(s[1..]);
      }
    }
  }

  /** A second pass finds nothing to drop exactly when no caret of the text rejoins a digit. */
  lemma StripIsStableIffNothingRejoins(s: string)
    ensures Strip(Strip(s)) == Strip(s) <==> !Rejoins(s)
  {
    var t := Strip(s);
    CodesAppearIffRejoined(s);
    if HasCode(t) {
      FirstCodeShortens(t);
    } else {
      StripSkipsText(t, |t|);
    }
  }

  lemma {:induction false} FirstCodeShortens(t: string)
    requires HasCode(t)
    ensures |Strip(t)| < |t|
  {
    LengthIsAccountedFor(t);
    if !IsColorCode(t) {
      var i :| 0 <= i < |t| && IsColorCode(t[i..]);
      assert i > 0 && t[1..][i - 1..] == t[i..];
      FirstCodeShortens(t[1..]);
    }
  }
}
