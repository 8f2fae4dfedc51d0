/** Reading and writing byte buffers at a moving position
    (crates/xash3d-protocol/src/cursor/read.rs and cursor/write.rs). */
module Cursors {
  import opened Prelude

  /** The value read and the bytes behind it. */
  type Read<+T> = Result<(T, bytes), CursorError>

  function ReadBytes(s: bytes, count: nat): Read<bytes> {
    if count <= |s| then Ok((s[..count], s[count..])) else Err(NeedMoreBytes(count - |s|))
  }

  function ReadExpect(s: bytes, expected: bytes): Read<()> {
    if |s| < |expected| then Err(NeedMoreBytes(|expected| - |s|))
    else if s[..|expected|] == expected then Ok(((), s[|expected|..]))
    else Err(Expect)
  }

  function ReadU8(s: bytes): Read<byte> {
    if s == [] then Err(NeedMoreBytes(1)) else Ok((s[0], s[1..]))
  }

  function Pow256(k: nat): nat {
    if k == 0 then 1 else 256 * Pow256(k - 1)
  }

  /** Little-endian bytes of `n` in width `k`. */
  function ToLe(n: nat, k: nat): (s: bytes)
    ensures |s| == k
  {
    if k == 0 then [] else [n % 256] + ToLe(n / 256, k - 1)
  }

  function FromLe(s: bytes): nat {
    if s == [] then 0 else s[0] + 256 * FromLe(s[1..])
  }

  lemma {:induction false} FromLeIsBounded(s: bytes)
    ensures FromLe(s) < Pow256(|s|)
  {
    if s != [] {
      FromLeIsBounded(s[1..]);
    }
  }

  lemma {:induction false} FromLeInvertsToLe(n: nat, k: nat)
    requires n < Pow256(k)
    ensures FromLe(ToLe(n, k)) == n
  {
    if k > 0 {
      FromLeInvertsToLe(n / 256, k - 1);
    }
  }

  /** The least significant byte comes first. */
  lemma LittleEndian(n: nat)
    ensures ToLe(n, 2) == [n % 0x100, n / 0x100 % 0x100]
    ensures n < 0x1_0000_0000 ==>
              ToLe(n, 4) == [n % 0x100, n / 0x100 % 0x100, n / 0x1_0000 % 0x100, n / 0x100_0000]
  {
    assert n / 0x100 / 0x100 == n / 0x1_0000 && n / 0x1_0000 / 0x100 == n / 0x100_0000;
    assert ToLe(n, 2) == [n % 0x100] + ToLe(n / 0x100, 1);
    assert ToLe(n / 0x100, 1) == [n / 0x100 % 0x100] + ToLe(n / 0x100 / 0x100, 0);
    assert ToLe(n, 4) == [n % 0x100] + ToLe(n / 0x100, 3);
    assert ToLe(n / 0x100, 3) == [n / 0x100 % 0x100] + ToLe(n / 0x1_0000, 2);
    assert ToLe(n / 0x1_0000, 2) == [n / 0x1_0000 % 0x100] + ToLe(n / 0x100_0000, 1);
    assert ToLe(n / 0x100_0000, 1) == [n / 0x100_0000 % 0x100] + ToLe(n / 0x100_0000 / 0x100, 0);
  }

  lemma Widths()
    ensures Pow256(1) == 0x100 && Pow256(2) == 0x1_0000 && Pow256(4) == 0x1_0000_0000
    ensures Pow256(8) == 0x1_0000_0000_0000_0000
  {
    assert Pow256(0) == 1;
    assert Pow256(3) == 256 * Pow256(2);
    assert Pow256(5) == 256 * Pow256(4);
    assert Pow256(6) == 256 * Pow256(5);
    assert Pow256(7) == 256 * Pow256(6);
  }

  /** A little-endian number of `k` bytes. */
  function ReadLe(s: bytes, k: nat): Read<nat> {
    var (b, rest) :- ReadBytes(s, k);
    Ok((FromLe(b), rest))
  }

  function ReadU16(s: bytes): Read<u16> {
    var (b, rest) :- ReadBytes(s, 2);
    FromLeIsBounded(b);
    Widths();
    Ok((FromLe(b), rest))
  }

  function ReadU64(s: bytes): Read<u64> {
    var (b, rest) :- ReadBytes(s, 8);
    FromLeIsBounded(b);
    Widths();
    Ok((FromLe(b), rest))
  }

  /** The first position of `c0` or `c1` at or behind `from`, or the length. */
  function FindFrom2(s: bytes, c0: byte, c1: byte, from: nat): (i: nat)
    requires from <= |s|
    ensures from <= i <= |s| && (i < |s| ==> s[i] == c0 || s[i] == c1)
    ensures forall k | from <= k < i :: s[k] != c0 && s[k] != c1
    decreases |s| - from
  {
    if from == |s| || s[from] == c0 || s[from] == c1 then from else FindFrom2(s, c0, c1, from + 1)
  }

  /** The bytes in front of the first `c0` or `c1`, which stays unread. */
  function ReadUntil2(s: bytes, c0: byte, c1: byte): Read<bytes> {
    var i := FindFrom2(s, c0, c1, 0);
    if i == |s| then Err(NeedMoreBytes(1)) else Ok((s[..i], s[i..]))
  }

  /** A NUL-terminated string; the terminator is consumed. */
  function ReadCstr(s: bytes): Read<bytes> {
    var (text, rest) :- ReadUntil2(s, NUL, NUL);
    Ok((text, rest[1..]))
  }

  function Cstr(s: bytes): bytes {
    s + [NUL]
  }

  lemma FindBehind(a: bytes, c0: byte, c1: byte, b: bytes)
    requires c0 !in a && c1 !in a
    ensures FindFrom2(a + b, c0, c1, 0) >= |a|
    ensures b != [] && (b[0] == c0 || b[0] == c1) ==> FindFrom2(a + b, c0, c1, 0) == |a|
    ensures b == [] ==> FindFrom2(a + b, c0, c1, 0) == |a|
  {
    var s, i := a + b, FindFrom2(a + b, c0, c1, 0);
    assert forall k | 0 <= k < |a| :: s[k] == a[k] && a[k] in a;
    assert b != [] ==> s[|a|] == b[0];
  }

  lemma ReadCstrOf(s: bytes, rest: bytes)
    requires NUL !in s
    ensures ReadCstr(Cstr(s) + rest) == Ok((s, rest))
  {
    Assoc(s, [NUL], rest);
    FindBehind(s, NUL, NUL, [NUL] + rest);
    var t := s + ([NUL] + rest);
    assert t[..|s|] == s && t[|s|..] == [NUL] + rest;
    assert ([NUL] + rest)[1..] == rest;
  }

  /** A text up to a NUL that must be the last byte or, for senders that forget it, up to the end. */
  function TextToEnd(s: bytes): Result<bytes, CursorError> {
    match ReadCstr(s)
    case Err(_) => Ok(s)
    case Ok(r) => if r.1 != [] then Err(ExpectEmpty) else Ok(r.0)
  }

  lemma TextToEndOf(text: bytes)
    requires NUL !in text
    ensures TextToEnd(Cstr(text)) == Ok(text) == TextToEnd(text)
  {
    ReadCstrOf(text, []);
    assert Cstr(text) + [] == Cstr(text);
    FindBehind(text, NUL, NUL, []);
    assert text + [] == text;
  }

  /** Nothing may follow the NUL. */
  lemma TextToEndFails(text: bytes, rest: bytes)
    requires NUL !in text && rest != []
    ensures TextToEnd(Cstr(text) + rest) == Err(ExpectEmpty)
  {
    ReadCstrOf(text, rest);
  }

  lemma ReadLeOf(n: nat, k: nat, rest: bytes)
    requires n < Pow256(k)
    ensures ReadLe(ToLe(n, k) + rest, k) == Ok((n, rest))
  {
    FromLeInvertsToLe(n, k);
    var s := ToLe(n, k) + rest;
    assert s[..k] == ToLe(n, k) && s[k..] == rest;
  }

  lemma ReadU16Of(n: u16, rest: bytes)
    ensures ReadU16(ToLe(n, 2) + rest) == Ok((n, rest))
  {
    Widths();
    ReadLeOf(n, 2, rest);
  }

  lemma ReadU64Of(n: u64, rest: bytes)
    ensures ReadU64(ToLe(n, 8) + rest) == Ok((n, rest))
  {
    Widths();
    ReadLeOf(n, 8, rest);
  }

  lemma ReadU8Of(b: byte, rest: bytes)
    ensures ReadU8([b] + rest) == Ok((b, rest))
  {
  }

  lemma ReadExpectOf(h: bytes, rest: bytes)
    ensures ReadExpect(h + rest, h) == Ok(((), rest))
  {
    assert (h + rest)[..|h|] == h && (h + rest)[|h|..] == rest;
  }

  /** Whether a call returned and consumed what its definition on the unread bytes says; a call that
      fails consumes nothing. */
  predicate Performed<T(==)>(spec: Read<T>, r: Result<T, CursorError>, before: bytes, after: bytes) {
    match spec
    case Ok(p) => r == Ok(p.0) && after == p.1
    case Err(e) => r == Err(e) && after == before
  }

  class Cursor {
    const buffer: bytes
    var pos: nat

    ghost predicate Valid()
      reads this
    {
      pos <= |buffer|
    }

    ghost function Rest(): bytes
      reads this
      requires Valid()
    {
      buffer[pos..]
    }

    constructor (buffer: bytes)
      ensures Valid() && Rest() == buffer && this.buffer == buffer
    {
      this.buffer := buffer;
      pos := 0;
    }

    method GetBytes(count: nat) returns (r: Result<bytes, CursorError>)
      requires Valid()
      modifies this
      ensures Valid() && Performed(ReadBytes(old(Rest()), count), r, old(Rest()), Rest())
    {
      var end := pos + count;
      if end <= |buffer| {
        assert buffer[pos..][..count] == buffer[pos..end] && buffer[pos..][count..] == buffer[end..];
        r := Ok(buffer[pos..end]);
        pos := end;
      } else {
        r := Err(NeedMoreBytes(end - |buffer|));
      }
    }

    method GetU8() returns (r: Result<byte, CursorError>)
      requires Valid()
      modifies this
      ensures Valid() && Performed(ReadU8(old(Rest())), r, old(Rest()), Rest())
    {
      var b :- GetBytes(1);
      r := Ok(b[0]);
    }

    method GetU16() returns (r: Result<u16, CursorError>)
      requires Valid()
      modifies this
      ensures Valid() && Performed(ReadU16(old(Rest())), r, old(Rest()), Rest())
    {
      var b :- GetBytes(2);
      FromLeIsBounded(b);
      Widths();
      r := Ok(FromLe(b));
    }

    method GetU64() returns (r: Result<u64, CursorError>)
      requires Valid()
      modifies this
      ensures Valid() && Performed(ReadU64(old(Rest())), r, old(Rest()), Rest())
    {
      var b :- GetBytes(8);
      FromLeIsBounded(b);
      Widths();
      r := Ok(FromLe(b));
    }

    method ExpectBytes(expected: bytes) returns (r: Result<(), CursorError>)
      requires Valid()
      modifies this
      ensures Valid() && Performed(ReadExpect(old(Rest()), expected), r, old(Rest()), Rest())
    {
      if |buffer| - pos < |expected| {
        return Err(NeedMoreBytes(|expected| - (|buffer| - pos)));
      } else if expected <= buffer[pos..] {
        pos := pos + |expected|;
        return Ok(());
      }
      r := Err(Expect);
    }

    method TakeUntil2(c0: byte, c1: byte) returns (r: Result<bytes, CursorError>)
      requires Valid()
      modifies this
      ensures Valid() && Performed(ReadUntil2(old(Rest()), c0, c1), r, old(Rest()), Rest())
    {
      var i := FindFrom2(buffer[pos..], c0, c1, 0);
      if pos + i == |buffer| {
        return Err(NeedMoreBytes(1));
      }
      assert buffer[pos..][..i] == buffer[pos..pos + i] && buffer[pos..][i..] == buffer[pos + i..];
      r := Ok(buffer[pos..pos + i]);
      pos := pos + i;
    }

    method GetCstr() returns (r: Result<bytes, CursorError>)
      requires Valid()
      modifies this
      ensures Valid() && Performed(ReadCstr(old(Rest())), r, old(Rest()), Rest())
    {
      var text :- TakeUntil2(NUL, NUL);
      pos := pos + 1;
      r := Ok(text);
    }

    method GetTextToEnd() returns (r: Result<bytes, CursorError>)
      requires Valid()
      modifies this
      ensures Valid() && r == TextToEnd(old(Rest()))
    {
      var text := GetCstr();
      if text.Err? {
        return Ok(buffer[pos..]);
      }
      r := if pos < |buffer| then Err(ExpectEmpty) else text;
    }
  }

  /** A writer over the part [offset, end) of a buffer; `pos` counts from `offset`. */
  class CursorMut {
    const buffer: array<byte>
    const offset: nat
    const end: nat
    var pos: nat

    ghost predicate Valid()
      reads this
    {
      offset + pos <= end <= buffer.Length
    }

    ghost function Written(): bytes
      reads this, buffer
      requires Valid()
    {
      buffer[offset..offset + pos]
    }

    constructor (buffer: array<byte>)
      ensures Valid() && this.buffer == buffer && offset == 0 && end == buffer.Length && Written() == []
    {
      this.buffer := buffer;
      offset, end, pos := 0, buffer.Length, 0;
    }

    constructor Part(buffer: array<byte>, offset: nat, end: nat, pos: nat)
      requires offset + pos <= end <= buffer.Length
      ensures Valid() && this.buffer == buffer && this.offset == offset && this.end == end && this.pos == pos
    {
      this.buffer := buffer;
      this.offset, this.end, this.pos := offset, end, pos;
    }

    /** The position in the whole buffer. */
    function Pos(): nat
      reads this
    {
      offset + pos
    }

    function Available(): int
      reads this
    {
      end - offset - pos
    }

    predicate IsFull()
      reads this
    {
      offset + pos == end
    }

    /** Whether a call wrote `s` behind what was written before. If `s` does not fit the call fails; it may
        then have written some of it, but never in front of where it started. */
    twostate predicate Appended(s: bytes, new r: Result<(), CursorError>)
      reads this, buffer
    {
      && old(Valid()) && Valid()
      && r == (if |s| <= old(Available()) then Ok(()) else Err(BufferOverflow))
      && (r.Ok? ==> Written() == old(Written()) + s)
      && (forall i | 0 <= i < old(Pos()) :: buffer[i] == old(buffer[i]))
      && old(Pos()) <= Pos()
    }

    method PutBytes(s: bytes) returns (r: Result<(), CursorError>)
      requires Valid()
      modifies this, buffer
      ensures Appended(s, r)
      ensures forall i | Pos() <= i < buffer.Length :: buffer[i] == old(buffer[i])
    {
      if |s| > end - offset - pos {
        return Err(BufferOverflow);
      }
      var start := offset + pos;
      forall i | 0 <= i < |s| {
        buffer[start + i] := s[i];
      }
      pos := pos + |s|;
      r := Ok(());
    }

    method PutU8(b: byte) returns (r: Result<(), CursorError>)
      requires Valid()
      modifies this, buffer
      ensures Appended([b], r)
      ensures forall i | Pos() <= i < buffer.Length :: buffer[i] == old(buffer[i])
    {
      r := PutBytes([b]);
    }

    method PutCstr(s: bytes) returns (r: Result<(), CursorError>)
      requires Valid()
      modifies this, buffer
      ensures Appended(Cstr(s), r)
    {
      ghost var w := Written();
      var _ :- PutBytes(s);
      r := PutU8(NUL);
      Assoc(w, s, [NUL]);
    }

    /** Gives up this cursor for two: one for the next `len` bytes, which keeps what was written, and one
        for everything behind them. */
    method Split(len: nat) returns (r: Result<(CursorMut, CursorMut), CursorError>)
      requires Valid()
      ensures r.Ok? <==> len <= Available()
      ensures r.Err? ==> r.error == BufferOverflow
      ensures r.Ok? ==>
                var (head, tail) := r.value;
                && fresh(head) && fresh(tail) && head != tail && head.Valid() && tail.Valid()
                && head.buffer == tail.buffer == buffer && head.offset == offset && head.pos == pos
                && head.end == tail.offset == Pos() + len && tail.pos == 0 && tail.end == end
    {
      if len > end - offset - pos {
        return Err(BufferOverflow);
      }
      var mid := offset + pos + len;
      var head := new CursorMut.Part(buffer, offset, mid, pos);
      var tail := new CursorMut.Part(buffer, mid, end, 0);
      r := Ok((head, tail));
    }
  }

  /** Fills in the one byte that was split off in front of what `tail` wrote. */
  method FillReserved(head: CursorMut, tail: CursorMut, b: byte)
    requires head.Valid() && tail.Valid() && head != tail
    requires head.buffer == tail.buffer && head.Pos() + 1 == head.end == tail.offset
    modifies head, head.buffer
    ensures tail.Valid() && tail.Pos() == old(tail.Pos())
    ensures forall i | 0 <= i < old(head.Pos()) :: head.buffer[i] == old(head.buffer[i])
    ensures head.buffer[old(head.Pos())..tail.Pos()] == [b] + old(tail.Written())
  {
    var put := head.PutU8(b);
    assert put.Ok? && head.IsFull();
    assert head.buffer[old(head.Pos())] == head.Written()[old(head.pos)] == b;
  }
}
