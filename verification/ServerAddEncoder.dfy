/** Writing the registration packet into a buffer (crates/xash3d-protocol/src/net/server.rs). */
module ServerAddEncoder {
  import opened Prelude
  import opened Types
  import opened Cursors
  import opened MapIters
  import opened ServerAddText

  /** The bytes written for some keys. */
  function KeysBytes(a: ServerAdd, xs: seq<Key>): bytes {
    Serialize(PairsOf(a, xs))
  }

  lemma {:induction false} PairsOfConcat(a: ServerAdd, xs: seq<Key>, ys: seq<Key>)
    ensures PairsOf(a, xs + ys) == PairsOf(a, xs) + PairsOf(a, ys)
    decreases |xs|
  {
    if xs == [] {
      assert xs + ys == ys;
    } else {
      PairsOfConcat(a, xs[1..], ys);
      assert (xs + ys)[1..] == xs[1..] + ys;
    }
  }

  lemma KeysBytesConcat(a: ServerAdd, xs: seq<Key>, ys: seq<Key>)
    ensures KeysBytes(a, xs + ys) == KeysBytes(a, xs) + KeysBytes(a, ys)
  {
    PairsOfConcat(a, xs, ys);
    SerializeConcat(PairsOf(a, xs), PairsOf(a, ys));
  }

  lemma OneKey(a: ServerAdd, x: Key)
    ensures KeysBytes(a, [x]) == SerializePair(Pair(Name(x), KeyText(a, x)))
  {
    var p := Pair(Name(x), KeyText(a, x));
    assert PairsOf(a, []) == [];
    assert [x][1..] == [];
    assert PairsOf(a, [x]) == [p];
    assert Serialize([p]) == SerializePair(p) + Serialize([]);
  }

  lemma Append(w: bytes, a: ServerAdd, xs: seq<Key>, ys: seq<Key>)
    ensures w + KeysBytes(a, xs) + KeysBytes(a, ys) == w + KeysBytes(a, xs + ys)
  {
    KeysBytesConcat(a, xs, ys);
    Assoc(w, KeysBytes(a, xs), KeysBytes(a, ys));
  }

  lemma Lengths(a: ServerAdd, xs: seq<Key>, ys: seq<Key>)
    ensures |KeysBytes(a, xs)| + |KeysBytes(a, ys)| == |KeysBytes(a, xs + ys)|
  {
    KeysBytesConcat(a, xs, ys);
  }

  method PutSlashed(cur: CursorMut, s: bytes) returns (r: Result<(), CursorError>)
    requires cur.Valid()
    modifies cur, cur.buffer
    ensures cur.Appended([BACKSLASH] + s, r)
  {
    ghost var w := cur.Written();
    var _ :- cur.PutU8(BACKSLASH);
    r := cur.PutBytes(s);
    Assoc(w, [BACKSLASH], s);
  }

  /** A backslash, the key, a backslash, the value. */
  method PutKey(cur: CursorMut, a: ServerAdd, x: Key) returns (r: Result<(), CursorError>)
    requires cur.Valid()
    modifies cur, cur.buffer
    ensures cur.Appended(KeysBytes(a, [x]), r)
  {
    ghost var w, name, text := cur.Written(), [BACKSLASH] + Name(x), [BACKSLASH] + KeyText(a, x);
    OneKey(a, x);
    assert KeysBytes(a, [x]) == name + text;
    var _ :- PutSlashed(cur, Name(x));
    r := PutSlashed(cur, KeyText(a, x));
    Assoc(w, name, text);
  }

  method PutTwo(cur: CursorMut, a: ServerAdd, x: Key, y: Key) returns (r: Result<(), CursorError>)
    requires cur.Valid()
    modifies cur, cur.buffer
    ensures cur.Appended(KeysBytes(a, [x, y]), r)
  {
    Append(cur.Written(), a, [x], [y]);
    Lengths(a, [x], [y]);
    assert [x] + [y] == [x, y];
    var _ :- PutKey(cur, a, x);
    r := PutKey(cur, a, y);
  }

  method PutFour(cur: CursorMut, a: ServerAdd, x0: Key, x1: Key, x2: Key, x3: Key) returns (r: Result<(), CursorError>)
    requires cur.Valid()
    modifies cur, cur.buffer
    ensures cur.Appended(KeysBytes(a, [x0, x1, x2, x3]), r)
  {
    Append(cur.Written(), a, [x0, x1], [x2, x3]);
    Lengths(a, [x0, x1], [x2, x3]);
    assert [x0, x1] + [x2, x3] == [x0, x1, x2, x3];
    var _ :- PutTwo(cur, a, x0, x1);
    r := PutTwo(cur, a, x2, x3);
  }

  const FIRST: seq<Key> := [ProtocolKey, ChallengeKey, PlayersKey, MaxKey]
  const SECOND: seq<Key> := [GamedirKey, MapKey, TypeKey, OsKey]
  const THIRD: seq<Key> := [VersionKey, RegionKey, BotsKey, PasswordKey]
  const FOURTH: seq<Key> := [SecureKey, LanKey]

  method PutFirst(cur: CursorMut, a: ServerAdd) returns (r: Result<(), CursorError>)
    requires cur.Valid()
    modifies cur, cur.buffer
    ensures cur.Appended(KeysBytes(a, FIRST + SECOND), r)
  {
    Append(cur.Written(), a, FIRST, SECOND);
    Lengths(a, FIRST, SECOND);
    var _ :- PutFour(cur, a, ProtocolKey, ChallengeKey, PlayersKey, MaxKey);
    r := PutFour(cur, a, GamedirKey, MapKey, TypeKey, OsKey);
  }

  method PutSecond(cur: CursorMut, a: ServerAdd) returns (r: Result<(), CursorError>)
    requires cur.Valid()
    modifies cur, cur.buffer
    ensures cur.Appended(KeysBytes(a, THIRD + FOURTH), r)
  {
    Append(cur.Written(), a, THIRD, FOURTH);
    Lengths(a, THIRD, FOURTH);
    var _ :- PutFour(cur, a, VersionKey, RegionKey, BotsKey, PasswordKey);
    r := PutTwo(cur, a, SecureKey, LanKey);
  }

  method PutMost(cur: CursorMut, a: ServerAdd) returns (r: Result<(), CursorError>)
    requires cur.Valid()
    modifies cur, cur.buffer
    ensures cur.Appended(KeysBytes(a, FIRST + SECOND + (THIRD + FOURTH)), r)
  {
    Append(cur.Written(), a, FIRST + SECOND, THIRD + FOURTH);
    Lengths(a, FIRST + SECOND, THIRD + FOURTH);
    var _ :- PutFirst(cur, a);
    r := PutSecond(cur, a);
  }

  /** All keys, in order. */
  method PutKeys(cur: CursorMut, a: ServerAdd) returns (r: Result<(), CursorError>)
    requires cur.Valid()
    modifies cur, cur.buffer
    ensures cur.Appended(KeysBytes(a, PRINT_ORDER), r)
  {
    ghost var most := FIRST + SECOND + (THIRD + FOURTH);
    Append(cur.Written(), a, most, [NatKey]);
    Lengths(a, most, [NatKey]);
    OrderIsComplete();
    var _ :- PutMost(cur, a);
    r := PutKey(cur, a, NatKey);
  }

  lemma OrderIsComplete()
    ensures FIRST + SECOND + (THIRD + FOURTH) + [NatKey] == PRINT_ORDER
  {
  }

  method PutPacket(cur: CursorMut, a: ServerAdd) returns (r: Result<(), CursorError>)
    requires cur.Valid()
    modifies cur, cur.buffer
    ensures cur.Appended(EncodeAdd(a), r)
  {
    ghost var w := cur.Written();
    var _ :- cur.PutBytes(HEADER);
    var _ :- PutKeys(cur, a);
    r := cur.PutU8(NEWLINE);
    Assoc(w + HEADER, KeysBytes(a, PRINT_ORDER), [NEWLINE]);
    Assoc(w, HEADER, KeysBytes(a, PRINT_ORDER) + [NEWLINE]);
  }

  /** The encoder succeeds exactly when the packet fits, and then the buffer starts with it. */
  method EncodePacket(a: ServerAdd, buffer: array<byte>) returns (r: Result<nat, Error>)
    modifies buffer
    ensures r.Ok? <==> |EncodeAdd(a)| <= buffer.Length
    ensures r.Err? ==> r.error == CursorFailed(BufferOverflow)
    ensures r.Ok? ==> r.value <= buffer.Length && buffer[..r.value] == EncodeAdd(a)
  {
    var cur := new CursorMut(buffer);
    var put := PutPacket(cur, a);
    if put.Err? {
      return Err(CursorFailed(put.error));
    }
    assert buffer[..cur.Pos()] == cur.Written() == EncodeAdd(a);
    r := Ok(cur.Pos());
  }
}
