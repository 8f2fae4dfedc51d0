/** Decoding a record from `\key\value` pairs: the loop shared by the filter and the server packets. */
module MapRecords {
  import opened Prelude
  import opened MapIters

  /** Why a record could not be decoded: the map is malformed, or a field rejected its value. */
  datatype Failure = BadMap | BadValue(key: bytes, error: CursorError)

  /** What a decoder does with one pair; pairs it does not know leave the record alone. */
  type Setter<!T> = (T, bytes, bytes) -> Result<T, CursorError>

  function SetPair<T>(t: T, p: Pair, set_: Setter<T>): Result<T, Failure> {
    match set_(t, p.key, p.value)
    case Ok(t') => Ok(t')
    case Err(e) => Err(BadValue(p.key, e))
  }

  /** The decoding loop on a body without its leading backslash. */
  function Decode<T>(t: T, s: bytes, set_: Setter<T>): Result<T, Failure>
    decreases |s|
  {
    if s == [] then Ok(t) else
    match SplitPair(s)
    case None => Err(BadMap)
    case Some(r) =>
      var t' :- SetPair(t, r.0, set_);
      Decode(t', r.1, set_)
  }

  function SetAll<T>(t: T, ps: seq<Pair>, set_: Setter<T>): Result<T, Failure>
    decreases |ps|
  {
    if ps == [] then Ok(t) else
    var t' :- SetPair(t, ps[0], set_);
    SetAll(t', ps[1..], set_)
  }

  lemma {:induction false} DecodeIsSetAll<T>(t: T, s: bytes, set_: Setter<T>)
    requires Pairs(s).Ok?
    ensures Decode(t, s, set_) == SetAll(t, Pairs(s).value, set_)
    decreases |s|
  {
    if s != [] {
      var (p, rest) := SplitPair(s).value;
      var ps := Pairs(s).value;
      assert ps[0] == p && ps[1..] == Pairs(rest).value;
      match SetPair(t, p, set_)
      case Ok(t') => DecodeIsSetAll(t', rest, set_);
      case Err(_) =>
    }
  }

  /** A successful decode went through all pairs. */
  lemma {:induction false} DecodedHasPairs<T>(t: T, s: bytes, set_: Setter<T>)
    requires Decode(t, s, set_).Ok?
    ensures Pairs(s).Ok?
    decreases |s|
  {
    if s != [] {
      var (p, rest) := SplitPair(s).value;
      DecodedHasPairs(SetPair(t, p, set_).value, rest, set_);
    }
  }

  lemma {:induction false} SetAllConcat<T>(t: T, a: seq<Pair>, b: seq<Pair>, set_: Setter<T>)
    requires SetAll(t, a, set_).Ok?
    ensures SetAll(t, a + b, set_) == SetAll(SetAll(t, a, set_).value, b, set_)
    decreases |a|
  {
    if a == [] {
      assert a + b == b;
    } else {
      SetAllConcat(SetPair(t, a[0], set_).value, a[1..], b, set_);
      assert (a + b)[1..] == a[1..] + b;
    }
  }

  /** The value of the last pair with a key. */
  function LastValue(ps: seq<Pair>, key: bytes): Option<bytes> {
    if ps == [] then None else if Last(ps).key == key then Some(Last(ps).value) else LastValue(Front(ps), key)
  }

  lemma LastValueSnoc(ps: seq<Pair>, p: Pair, key: bytes)
    ensures LastValue(ps + [p], key) == if p.key == key then Some(p.value) else LastValue(ps, key)
  {
    assert Front(ps + [p]) == ps;
  }

  lemma SetAllSnoc<T>(t: T, ps: seq<Pair>, set_: Setter<T>)
    requires ps != [] && SetAll(t, ps, set_).Ok?
    ensures SetAll(t, Front(ps), set_).Ok?
    ensures SetPair(SetAll(t, Front(ps), set_).value, Last(ps), set_) == SetAll(t, ps, set_)
  {
    SetFrontSucceeds(t, ps, set_);
    SetAllConcat(t, Front(ps), [Last(ps)], set_);
    assert Front(ps) + [Last(ps)] == ps;
    var r := SetPair(SetAll(t, Front(ps), set_).value, Last(ps), set_);
    assert [Last(ps)][1..] == [];
    assert SetAll(SetAll(t, Front(ps), set_).value, [Last(ps)], set_) == r;
  }

  lemma {:induction false} SetFrontSucceeds<T>(t: T, ps: seq<Pair>, set_: Setter<T>)
    requires ps != [] && SetAll(t, ps, set_).Ok?
    ensures SetAll(t, Front(ps), set_).Ok?
    decreases |ps|
  {
    if |ps| > 1 {
      SetFrontSucceeds(SetPair(t, ps[0], set_).value, ps[1..], set_);
      assert Front(ps)[1..] == Front(ps[1..]);
    }
  }

  /** The pairs in front of the end, or of the place where the body is malformed. */
  function FrontPairs(s: bytes): seq<Pair>
    decreases |s|
  {
    if s == [] then [] else
    match SplitPair(s)
    case None => []
    case Some(r) => [r.0] + FrontPairs(r.1)
  }

  /** How a decode fails: with the first pair whose value is rejected, whatever is behind it, or else because the body
      is malformed. */
  lemma {:induction false} DecodeFails<T>(t: T, s: bytes, set_: Setter<T>)
    ensures match Decode(t, s, set_)
            case Ok(t') => Pairs(s) == Ok(FrontPairs(s)) && SetAll(t, FrontPairs(s), set_) == Ok(t')
            case Err(BadMap) => Pairs(s).Err? && SetAll(t, FrontPairs(s), set_).Ok?
            case Err(BadValue(key, e)) => SetAll(t, FrontPairs(s), set_) == Err(BadValue(key, e))
    decreases |s|
  {
    if s != [] && SplitPair(s).Some? {
      var (p, rest) := SplitPair(s).value;
      assert FrontPairs(s)[0] == p && FrontPairs(s)[1..] == FrontPairs(rest);
      if SetPair(t, p, set_).Ok? {
        DecodeFails(SetPair(t, p, set_).value, rest, set_);
      }
    }
  }

  /** A property that every accepted pair preserves holds of every decoded record. */
  lemma {:induction false} SetAllPreserves<T>(t: T, ps: seq<Pair>, set_: Setter<T>, inv: T -> bool, good: bytes -> bool)
    requires inv(t) && SetAll(t, ps, set_).Ok?
    requires forall p | p in ps :: good(p.value)
    requires forall t: T, k, v | inv(t) && good(v) && set_(t, k, v).Ok? :: inv(set_(t, k, v).value)
    ensures inv(SetAll(t, ps, set_).value)
    decreases |ps|
  {
    if ps != [] {
      assert ps[0] in ps;
      SetAllPreserves(SetPair(t, ps[0], set_).value, ps[1..], set_, inv, good);
    }
  }
}
