/** Frames of the Steam broker protocol: a magic, a length and a payload
    (crates/xash3d-protocol/src/net/broker.rs). */
module Broker {
  import opened Prelude
  import opened Cursors

  const MAGIC: bytes := [83, 66, 82, 75]
  const FIXED_SIZE := 6

  function FrameBytes(payload: bytes): bytes
    requires |payload| < 0x1_0000
  {
    MAGIC + ToLe(|payload|, 2) + payload
  }

  /** The payload of a frame. */
  function Payload(frame: bytes): bytes
    requires FIXED_SIZE <= |frame|
  {
    frame[FIXED_SIZE..]
  }

  /** The frame at the start of a buffer. */
  function Decode(src: bytes): (r: Result<bytes, CursorError>)
    ensures r.Ok? ==> FIXED_SIZE <= |r.value| <= |src| && r.value == src[..|r.value|]
  {
    if |src| < FIXED_SIZE then Err(NeedMoreBytes(FIXED_SIZE - |src|))
    else if src[..4] != MAGIC then Err(Expect)
    else
      var len := FIXED_SIZE + FromLe(src[4..6]);
      if |src| < len then Err(NeedMoreBytes(len - |src|)) else Ok(src[..len])
  }

  lemma LengthField(src: bytes)
    requires FIXED_SIZE <= |src|
    ensures ReadExpect(src, MAGIC) == if src[..4] == MAGIC then Ok(((), src[4..])) else Err(Expect)
    ensures ReadU16(src[4..]) == Ok((FromLe(src[4..6]), src[6..]))
  {
    assert src[4..][..2] == src[4..6] && src[4..][2..] == src[6..];
  }

  /** The magic and the length of the payload. */
  method GetHeader(cur: Cursor) returns (r: Result<u16, CursorError>)
    requires cur.Valid() && cur.pos == 0 && FIXED_SIZE <= |cur.buffer|
    modifies cur
    ensures if cur.buffer[..4] != MAGIC then r == Err(Expect)
            else r == Ok(FromLe(cur.buffer[4..6])) && cur.pos == FIXED_SIZE
  {
    LengthField(cur.buffer);
    assert cur.Rest() == cur.buffer;
    var _ :- cur.ExpectBytes(MAGIC);
    assert cur.Rest() == cur.buffer[4..];
    r := cur.GetU16();
    assert |cur.Rest()| == |cur.buffer[6..]|;
  }

  method DecodeFrame(src: bytes) returns (r: Result<bytes, CursorError>)
    ensures r == Decode(src)
  {
    if |src| < FIXED_SIZE {
      return Err(NeedMoreBytes(FIXED_SIZE - |src|));
    }
    var cur := new Cursor(src);
    var len :- GetHeader(cur);
    ghost var rest := cur.Rest();
    assert |rest| == |src| - FIXED_SIZE;
    var payload :- cur.GetBytes(len);
    assert |cur.Rest()| == |rest| - len;
    r := Ok(src[..cur.pos]);
  }

  method PutHeader(head: CursorMut, len: u16)
    requires head.Valid() && head.offset == head.pos == 0 && head.end == FIXED_SIZE
    modifies head, head.buffer
    ensures head.buffer[..FIXED_SIZE] == MAGIC + ToLe(len, 2)
    ensures forall i | FIXED_SIZE <= i < head.buffer.Length :: head.buffer[i] == old(head.buffer[i])
  {
    var magic := head.PutBytes(MAGIC);
    var size := head.PutBytes(ToLe(len, 2));
    assert size.Ok? && head.IsFull();
    assert head.buffer[..FIXED_SIZE] == head.Written();
  }

  /** Reserves the header, writes the payload behind it, then fills in the header. The buffer of a frame too
      long for its length field is written to before the encoder notices. */
  method EncodeFrame(payload: bytes, buffer: array<byte>) returns (r: Result<nat, CursorError>)
    modifies buffer
    ensures if FIXED_SIZE + |payload| > buffer.Length then r == Err(BufferOverflow)
            else if |payload| >= 0x1_0000 then r == Err(InvalidNumber)
            else r == Ok(FIXED_SIZE + |payload|) && buffer[..r.value] == FrameBytes(payload)
  {
    var cur := new CursorMut(buffer);
    var parts :- cur.Split(FIXED_SIZE);
    var (head, tail) := parts;
    var _ :- tail.PutBytes(payload);
    var n := tail.Pos();
    assert buffer[FIXED_SIZE..n] == tail.Written() == payload;
    if tail.pos >= 0x1_0000 {
      return Err(InvalidNumber);
    }
    PutHeader(head, tail.pos);
    assert buffer[FIXED_SIZE..n] == payload;
    assert buffer[..n] == buffer[..FIXED_SIZE] + buffer[FIXED_SIZE..n];
    r := Ok(n);
  }

  lemma FrameStart(payload: bytes, rest: bytes)
    requires |payload| < 0x1_0000
    ensures var s := FrameBytes(payload) + rest;
            s[..4] == MAGIC && FromLe(s[4..6]) == |payload| && s[..FIXED_SIZE + |payload|] == FrameBytes(payload)
  {
    var s := FrameBytes(payload) + rest;
    Widths();
    FromLeInvertsToLe(|payload|, 2);
    assert s[4..6] == ToLe(|payload|, 2);
  }

  /** The frame in front is found, whatever follows it, and its payload is the one that was encoded. */
  lemma DecodeInvertsEncode(payload: bytes, rest: bytes)
    requires |payload| < 0x1_0000
    ensures Decode(FrameBytes(payload) + rest) == Ok(FrameBytes(payload))
    ensures Payload(FrameBytes(payload)) == payload
  {
    FrameStart(payload, rest);
  }

  // A stream of frames

  function Stream(payloads: seq<bytes>): bytes
    requires forall p | p in payloads :: |p| < 0x1_0000
  {
    if payloads == [] then [] else FrameBytes(payloads[0]) + Stream(payloads[1..])
  }

  /** Taking frames off a stream one by one. */
  function DecodeStream(src: bytes): Result<seq<bytes>, CursorError> {
    if src == [] then Ok([]) else
    var frame :- Decode(src);
    var rest :- DecodeStream(src[|frame|..]);
    Ok([Payload(frame)] + rest)
  }

  /** Frames that follow each other do not run into each other. */
  lemma {:induction false} DecodeStreamInverts(payloads: seq<bytes>)
    requires forall p | p in payloads :: |p| < 0x1_0000
    ensures DecodeStream(Stream(payloads)) == Ok(payloads)
  {
    if payloads != [] {
      var frame, rest := FrameBytes(payloads[0]), Stream(payloads[1..]);
      DecodeInvertsEncode(payloads[0], rest);
      assert (frame + rest)[|frame|..] == rest;
      DecodeStreamInverts(payloads[1..]);
      assert Stream(payloads) == frame + rest;
      assert [payloads[0]] + payloads[1..] == payloads;
    }
  }

  // Incremental reading

  /** Up to where a reader that has `have` bytes of a frame is told to read. */
  function Goal(payload: bytes, have: nat): (n: nat)
    requires |payload| < 0x1_0000
    ensures n <= |FrameBytes(payload)|
  {
    if have < FIXED_SIZE then FIXED_SIZE else |FrameBytes(payload)|
  }

  /** A reader that has only a part of a frame is told to wait, for no more than what is missing: up to the
      end of the header first, then up to the end of the frame. */
  lemma PrefixNeedsMore(payload: bytes, n: nat)
    requires |payload| < 0x1_0000 && n < |FrameBytes(payload)|
    ensures Decode(FrameBytes(payload)[..n])
         == Err(NeedMoreBytes(Goal(payload, n) - n))
  {
    FrameStart(payload, []);
    var s := FrameBytes(payload);
    assert s + [] == s;
    if n >= FIXED_SIZE {
      assert s[..n][..4] == s[..4] && s[..n][4..6] == s[4..6];
    }
  }

  function AskedOnce(t: (Result<bytes, CursorError>, nat, nat)): (Result<bytes, CursorError>, nat, nat) {
    (t.0, t.1, t.2 + 1)
  }

  /** A reader that asks for exactly the bytes it is told to, on a stream that starts with a frame. Returns
      what it decoded, how much it read, and how often it had to ask. */
  function ReadFrame(s: bytes, have: nat, fuel: nat): (Result<bytes, CursorError>, nat, nat)
    requires have <= |s|
    decreases fuel
  {
    match Decode(s[..have])
    case Err(NeedMoreBytes(k)) =>
      if fuel == 0 || have + k > |s| then (Err(NeedMoreBytes(k)), have, 0)
      else AskedOnce(ReadFrame(s, have + k, fuel - 1))
    case r => (r, have, 0)
  }

  /** Two requests are enough, whatever part of the frame the reader starts with and whatever follows the
      frame; the reader never reads past the frame. */
  lemma TwoRequestsSuffice(payload: bytes, rest: bytes, have: nat)
    requires |payload| < 0x1_0000 && have <= |FrameBytes(payload)|
    ensures var (r, n, asked) := ReadFrame(FrameBytes(payload) + rest, have, 2);
            r == Ok(FrameBytes(payload)) && n == |FrameBytes(payload)| && asked <= 2
  {
    if have < FIXED_SIZE {
      ReaderStep(payload, rest, FIXED_SIZE, 1);
    }
    ReaderStep(payload, rest, have, 2);
  }

  /** What the reader does from a given point on. */
  lemma ReaderStep(payload: bytes, rest: bytes, have: nat, fuel: nat)
    requires |payload| < 0x1_0000 && have <= |FrameBytes(payload)| && fuel > 0
    ensures have < |FrameBytes(payload)| ==>
              ReadFrame(FrameBytes(payload) + rest, have, fuel) ==
              AskedOnce(ReadFrame(FrameBytes(payload) + rest, Goal(payload, have), fuel - 1))
    ensures have == |FrameBytes(payload)| ==>
              ReadFrame(FrameBytes(payload) + rest, have, fuel) == (Ok(FrameBytes(payload)), have, 0)
    ensures ReadFrame(FrameBytes(payload) + rest, |FrameBytes(payload)|, fuel - 1)
         == (Ok(FrameBytes(payload)), |FrameBytes(payload)|, 0)
  {
    var frame := FrameBytes(payload);
    var s := frame + rest;
    assert s[..have] == frame[..have] && s[..|frame|] == frame;
    DecodeInvertsEncode(payload, []);
    assert frame + [] == frame == frame[..|frame|];
    if have < |frame| {
      PrefixNeedsMore(payload, have);
    }
  }
}
