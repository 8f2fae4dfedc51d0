/** Iterating over `\key\value` pairs (crates/xash3d-protocol/src/map.rs). */
module MapIters {
  import opened Prelude

  datatype Pair = Pair(key: bytes, value: bytes)

  /** What a MapStr promises: no backslash and no NUL. */
  predicate IsMapStr(s: bytes) {
    BACKSLASH !in s && NUL !in s
  }

  /** MapStr::parse_bool. */
  function ParseBool(v: bytes): Result<bool, CursorError> {
    if v == [48] then Ok(false) else if v == [49] then Ok(true) else Err(InvalidBool)
  }

  function BoolText(b: bool): bytes {
    if b then [49] else [48]
  }

  function FindFrom(s: bytes, c: byte, from: nat): (i: nat)
    requires from <= |s|
    ensures from <= i <= |s| && (i < |s| ==> s[i] == c) && forall k | from <= k < i :: s[k] != c
    decreases |s| - from
  {
    if from == |s| || s[from] == c then from else FindFrom(s, c, from + 1)
  }

  /** The first position of `c`, or the length (memchr). */
  function Find(s: bytes, c: byte): (i: nat)
    ensures i <= |s| && (i < |s| ==> s[i] == c) && forall k | 0 <= k < i :: s[k] != c
  {
    FindFrom(s, c, 0)
  }

  lemma FindAt(a: bytes, c: byte, b: bytes)
    requires c !in a
    ensures Find(a, c) == |a| && Find(a + [c] + b, c) == |a|
  {
    var s := a + [c] + b;
    assert s[|a|] == c && forall k | 0 <= k < |a| :: s[k] == a[k] && a[k] in a;
  }

  /** A map string becomes an iterable body: the leading backslash is dropped. */
  function FromSlice(src: bytes): Result<bytes, Error> {
    if src == [] then Ok([])
    else if src[0] == BACKSLASH && NUL !in src[1..] then Ok(src[1..])
    else Err(InvalidMap)
  }

  /** One step on a non-empty body: the pair in front and the rest, or None when the key is not followed
      by a backslash. */
  function SplitPair(s: bytes): (r: Option<(Pair, bytes)>)
    requires s != []
    ensures r.Some? ==> |r.value.1| < |s|
  {
    var p := Find(s, BACKSLASH);
    if p == |s| then None else
    var tail := s[p + 1..];
    var n := Find(tail, BACKSLASH);
    Some((Pair(s[..p], tail[..n]), if n == |tail| then [] else tail[n + 1..]))
  }

  class MapIter {
    var bytes_: bytes

    constructor (body: bytes)
      ensures bytes_ == body
    {
      bytes_ := body;
    }

    /** None at the end; an error leaves the iterator where it is. */
    method Next() returns (item: Option<Result<Pair, Error>>)
      modifies this
      ensures old(bytes_) == [] ==> item == None && bytes_ == []
      ensures old(bytes_) != [] ==>
                match SplitPair(old(bytes_))
                case None => item == Some(Err(InvalidMap)) && bytes_ == old(bytes_)
                case Some(r) => item == Some(Ok(r.0)) && bytes_ == r.1 && |bytes_| < |old(bytes_)|
    {
      if bytes_ == [] {
        return None;
      }
      var p := Find(bytes_, BACKSLASH);
      if p == |bytes_| {
        return Some(Err(InvalidMap));
      }
      var e := p + 1 + Find(bytes_[p + 1..], BACKSLASH);
      var tail := if e < |bytes_| then e + 1 else e;
      assert bytes_[p + 1..e] == bytes_[p + 1..][..e - p - 1];
      assert e < |bytes_| ==> bytes_[p + 1..][e - p..] == bytes_[tail..];
      item := Some(Ok(Pair(bytes_[..p], bytes_[p + 1..e])));
      bytes_ := bytes_[tail..];
    }
  }

  /** All pairs of a body, up to the first error. */
  function Pairs(s: bytes): Result<seq<Pair>, Error>
    decreases |s|
  {
    if s == [] then Ok([]) else
    match SplitPair(s)
    case None => Err(InvalidMap)
    case Some(r) =>
      var rest :- Pairs(r.1);
      Ok([r.0] + rest)
  }

  function CountOf(s: bytes, c: byte): nat {
    if s == [] then 0 else CountOf(s[1..], c) + if s[0] == c then 1 else 0
  }

  lemma {:induction false} CountConcat(a: bytes, b: bytes, c: byte)
    ensures CountOf(a + b, c) == CountOf(a, c) + CountOf(b, c)
  {
    if a == [] {
      assert a + b == b;
    } else {
      CountConcat(a[1..], b, c);
      assert (a + b)[1..] == a[1..] + b;
    }
  }

  lemma {:induction false} CountIsZeroIff(s: bytes, c: byte)
    ensures CountOf(s, c) == 0 <==> c !in s
  {
    if s != [] {
      CountIsZeroIff(s[1..], c);
    }
  }

  /** Taking the pair in front off a body takes off two backslashes, or the only one that is left. */
  lemma SplitCounts(s: bytes)
    requires s != [] && SplitPair(s).Some?
    ensures var rest := SplitPair(s).value.1;
            && (if After(s) == [] then CountOf(s, BACKSLASH) == 1 else CountOf(s, BACKSLASH) == 2 + CountOf(rest, BACKSLASH))
            && (rest != [] ==> Last(rest) == Last(s))
            && (rest == [] && After(s) != [] ==> Last(s) == BACKSLASH)
  {
    SplitPairShape(s);
    var (p, rest) := SplitPair(s).value;
    CountConcat(p.key + [BACKSLASH], p.value + After(s), BACKSLASH);
    CountConcat(p.key, [BACKSLASH], BACKSLASH);
    CountConcat(p.value, After(s), BACKSLASH);
    CountIsZeroIff(p.key, BACKSLASH);
    CountIsZeroIff(p.value, BACKSLASH);
    if After(s) != [] {
      CountConcat([BACKSLASH], rest, BACKSLASH);
    }
  }

  /** An odd number of backslashes, or one at the end. */
  predicate Paired(s: bytes) {
    s == [] || CountOf(s, BACKSLASH) % 2 == 1 || Last(s) == BACKSLASH
  }

  lemma PairedFirst(s: bytes)
    requires s != [] && SplitPair(s).Some?
    ensures Paired(s) <==> Paired(SplitPair(s).value.1)
  {
    SplitCounts(s);
  }

  /** Exactly which bodies are lists of pairs. */
  lemma {:induction false} PairsOkIff(s: bytes)
    ensures Pairs(s).Ok? <==> Paired(s)
    decreases |s|
  {
    if s != [] {
      if SplitPair(s).Some? {
        PairedFirst(s);
        PairsOkIff(SplitPair(s).value.1);
      } else {
        CountIsZeroIff(s, BACKSLASH);
      }
    }
  }

  function SerializePair(p: Pair): bytes {
    [BACKSLASH] + (p.key + [BACKSLASH] + p.value)
  }

  function Serialize(ps: seq<Pair>): bytes {
    if ps == [] then [] else SerializePair(ps[0]) + Serialize(ps[1..])
  }

  lemma {:induction false} SerializeConcat(a: seq<Pair>, b: seq<Pair>)
    ensures Serialize(a + b) == Serialize(a) + Serialize(b)
  {
    if a == [] {
      assert a + b == b;
    } else {
      SerializeConcat(a[1..], b);
      assert (a + b)[1..] == a[1..] + b;
      Assoc(SerializePair(a[0]), Serialize(a[1..]), Serialize(b));
    }
  }

  lemma Cut(s: bytes, p: nat)
    requires p < |s|
    ensures s == s[..p] + [s[p]] + s[p + 1..]
  {
  }

  /** What follows the pair in front of a body: nothing, or a backslash and the rest. */
  function After(s: bytes): (more: bytes)
    requires s != [] && SplitPair(s).Some?
    ensures more == [] ==> SplitPair(s).value.1 == []
  {
    var tail := s[Find(s, BACKSLASH) + 1..];
    if Find(tail, BACKSLASH) == |tail| then [] else [BACKSLASH] + SplitPair(s).value.1
  }

  /** A value ends at the first backslash, or at the end. */
  lemma ValueShape(tail: bytes)
    ensures var n := Find(tail, BACKSLASH);
            && tail == tail[..n] + (if n == |tail| then [] else [BACKSLASH] + tail[n + 1..])
            && BACKSLASH !in tail[..n]
  {
    var n := Find(tail, BACKSLASH);
    if n < |tail| {
      Cut(tail, n);
      Assoc(tail[..n], [BACKSLASH], tail[n + 1..]);
    } else {
      assert tail[..n] + [] == tail;
    }
  }

  lemma SplitPairShape(s: bytes)
    requires s != [] && SplitPair(s).Some?
    ensures var p := SplitPair(s).value.0;
            s == p.key + [BACKSLASH] + (p.value + After(s)) && BACKSLASH !in p.key && BACKSLASH !in p.value
  {
    var p := Find(s, BACKSLASH);
    Cut(s, p);
    ValueShape(s[p + 1..]);
  }

  lemma SplitPairIsLossless(s: bytes)
    requires s != [] && SplitPair(s).Some?
    ensures [BACKSLASH] + s == SerializePair(SplitPair(s).value.0) + After(s)
    ensures NUL !in s ==>
              var (p, rest) := SplitPair(s).value;
              IsMapStr(p.key) && IsMapStr(p.value) && NUL !in rest
  {
    SplitPairShape(s);
    var p := SplitPair(s).value.0;
    Assoc(p.key + [BACKSLASH], p.value, After(s));
    Assoc([BACKSLASH], p.key + [BACKSLASH] + p.value, After(s));
  }

  /** Nothing is lost: the pairs of any accepted input serialise back to it, up to one trailing backslash,
      and all their parts are valid map strings. */
  lemma {:induction false} PairsAreLossless(s: bytes)
    requires s != [] && Pairs(s).Ok?
    ensures var out := Serialize(Pairs(s).value);
            [BACKSLASH] + s == out || [BACKSLASH] + s == out + [BACKSLASH]
    ensures NUL !in s ==> AllMapStr(Pairs(s).value)
    decreases |s|
  {
    SplitPairIsLossless(s);
    var (p, rest) := SplitPair(s).value;
    var ps := Pairs(s).value;
    assert ps[0] == p && ps[1..] == Pairs(rest).value;
    if rest == [] {
      assert Serialize(ps) == SerializePair(p) + [] == SerializePair(p);
    } else {
      PairsAreLossless(rest);
      Assoc(SerializePair(p), Serialize(ps[1..]), [BACKSLASH]);
    }
  }

  /** Exactly which slices are maps: the empty one, and those that start with a backslash, hold no NUL, and have an odd
      number of backslashes, or one at the end, behind that. */
  lemma MapIsAcceptedIff(src: bytes)
    ensures FromSlice(src).Ok? && Pairs(FromSlice(src).value).Ok? <==>
              src == [] || ([BACKSLASH] <= src && NUL !in src && Paired(src[1..]))
  {
    if src != [] {
      PairsOkIff(src[1..]);
      assert NUL in src <==> src[0] == NUL || NUL in src[1..];
    } else {
      assert Pairs([]) == Ok([]);
    }
  }

  /** What it means that the pairs of an accepted map lose nothing. */
  predicate Lossless(src: bytes, ps: seq<Pair>) {
    (src == Serialize(ps) || src == Serialize(ps) + [BACKSLASH]) && AllMapStr(ps)
  }

  lemma AcceptedSlice(src: bytes)
    requires FromSlice(src).Ok?
    ensures var body := FromSlice(src).value; NUL !in body && (src == body == [] || src == [BACKSLASH] + body)
  {
    assert src != [] ==> src == [src[0]] + src[1..];
  }

  lemma EmptyMapIsLossless(src: bytes)
    requires src == [] || src == [BACKSLASH] + []
    ensures Lossless(src, [])
  {
  }

  lemma BodyIsLossless(body: bytes)
    requires NUL !in body && Pairs(body).Ok?
    ensures body != [] ==> Lossless([BACKSLASH] + body, Pairs(body).value)
    ensures body == [] ==> Pairs(body).value == []
  {
    if body != [] {
      PairsAreLossless(body);
    }
  }

  lemma AcceptedMapIsLossless(src: bytes)
    requires FromSlice(src).Ok? && Pairs(FromSlice(src).value).Ok?
    ensures Lossless(src, Pairs(FromSlice(src).value).value)
  {
    var body := FromSlice(src).value;
    AcceptedSlice(src);
    BodyIsLossless(body);
    if body == [] {
      EmptyMapIsLossless(src);
    }
  }

  predicate AllMapStr(ps: seq<Pair>) {
    forall p | p in ps :: IsMapStr(p.key) && IsMapStr(p.value)
  }

  lemma SplitSerialized(p: Pair, rest: bytes)
    requires IsMapStr(p.key) && IsMapStr(p.value) && (rest == [] || rest[0] == BACKSLASH)
    ensures (SerializePair(p) + rest)[1..] == p.key + [BACKSLASH] + (p.value + rest)
    ensures SplitPair(p.key + [BACKSLASH] + (p.value + rest)) == Some((p, if rest == [] then [] else rest[1..]))
  {
    var tail := p.value + rest;
    var s := p.key + [BACKSLASH] + tail;
    Assoc([BACKSLASH], p.key + [BACKSLASH] + p.value, rest);
    Assoc(p.key + [BACKSLASH], p.value, rest);
    FindAt(p.key, BACKSLASH, tail);
    assert s[..|p.key|] == p.key && s[|p.key| + 1..] == tail;
    FindValueEnd(p.value, rest);
    assert s[|p.key| + 1..|p.key| + 1 + |p.value|] == p.value;
    assert rest != [] ==> s[|p.key| + 1 + |p.value| + 1..] == rest[1..];
  }

  lemma FindValueEnd(value: bytes, rest: bytes)
    requires BACKSLASH !in value && (rest == [] || rest[0] == BACKSLASH)
    ensures Find(value + rest, BACKSLASH) == |value|
  {
    FindAt(value, BACKSLASH, if rest == [] then [] else rest[1..]);
    if rest == [] {
      assert value + rest == value;
    } else {
      assert value + rest == value + [BACKSLASH] + rest[1..];
    }
  }

  lemma {:induction false} SerializedStart(ps: seq<Pair>)
    requires AllMapStr(ps)
    ensures ps != [] ==> Serialize(ps) != [] && Serialize(ps)[0] == BACKSLASH
    ensures NUL !in Serialize(ps)
  {
    if ps != [] {
      SerializedStart(ps[1..]);
      assert ps[0] in ps;
    }
  }

  /** A serialised pair in front of a body. */
  lemma PairsWithFirst(p: Pair, rest: bytes, ps: seq<Pair>)
    requires IsMapStr(p.key) && IsMapStr(p.value)
    requires if rest == [] then ps == [] else rest[0] == BACKSLASH && Pairs(rest[1..]) == Ok(ps)
    ensures Pairs((SerializePair(p) + rest)[1..]) == Ok([p] + ps)
  {
    SplitSerialized(p, rest);
    var body := (SerializePair(p) + rest)[1..];
    assert body != [] && SplitPair(body) == Some((p, if rest == [] then [] else rest[1..]));
  }

  /** Iterating over serialised pairs yields exactly those pairs. */
  lemma {:induction false} PairsOfSerialized(ps: seq<Pair>)
    requires AllMapStr(ps) && ps != []
    ensures Serialize(ps) != [] && Pairs(Serialize(ps)[1..]) == Ok(ps)
  {
    assert ps[0] in ps;
    SerializedStart(ps[1..]);
    if |ps| > 1 {
      PairsOfSerialized(ps[1..]);
    }
    PairsWithFirst(ps[0], Serialize(ps[1..]), ps[1..]);
    assert [ps[0]] + ps[1..] == ps;
  }

  lemma SerializeRoundTrip(ps: seq<Pair>)
    requires AllMapStr(ps)
    ensures FromSlice(Serialize(ps)).Ok? && Pairs(FromSlice(Serialize(ps)).value) == Ok(ps)
  {
    SerializedStart(ps);
    if ps != [] {
      PairsOfSerialized(ps);
    }
  }

  lemma {:induction false} ValuesAreInside(ps: seq<Pair>, p: Pair)
    requires p in ps
    ensures forall c | c in p.value :: c in Serialize(ps)
  {
    if p != ps[0] {
      assert p in ps[1..];
      ValuesAreInside(ps[1..], p);
    }
  }
}
