/** Bytes, byte strings and the result type shared by the codec and the registry. */
module Prelude {

  type byte = x: int | 0 <= x < 256
  type bytes = seq<byte>

  type u16 = x: int | 0 <= x < 0x1_0000
  type u32 = x: int | 0 <= x < 0x1_0000_0000
  type u64 = x: int | 0 <= x < 0x1_0000_0000_0000_0000

  const NUL: byte := 0
  const NEWLINE: byte := 10
  const BACKSLASH: byte := 92

  function Min(a: nat, b: nat): nat {
    if a <= b then a else b
  }

  datatype Option<+T> = None | Some(value: T)

  datatype Result<+T, +E> = Ok(value: T) | Err(error: E) {
    predicate IsFailure() {
      Err?
    }

    function PropagateFailure<U>(): Result<U, E>
      requires Err?
    {
      Err(error)
    }

    function Extract(): T
      requires Ok?
    {
      value
    }
  }

  /** Errors of the cursors and of parsing a value (cursor.rs). */
  datatype CursorError =
    | InvalidNumber
    | InvalidString
    | InvalidBool
    | Expect
    | ExpectEmpty
    | ExpectFull
    | NeedMoreBytes(count: nat)
    | BufferOverflow

  /** Errors of decoding a packet (error.rs). */
  datatype Error =
    | InvalidPacket
    | InvalidMap
    | InvalidRegion
    | InvalidProtocolVersion
    | CursorFailed(cursor: CursorError)
    | InvalidServerValue(name: bytes, value: CursorError)
    | InvalidFilterValue(name: bytes, value: CursorError)

  /** The bytes of an ASCII literal. */
  function Ascii(s: string): (b: bytes)
    ensures |b| == |s|
  {
    seq(|s|, i requires 0 <= i < |s| => s[i] as int % 256)
  }

  function Front<T>(s: seq<T>): seq<T>
    requires s != []
  {
    s[..|s| - 1]
  }

  function Last<T>(s: seq<T>): T
    requires s != []
  {
    s[|s| - 1]
  }

  lemma Assoc<T>(a: seq<T>, b: seq<T>, c: seq<T>)
    ensures (a + b) + c == a + (b + c)
  {
  }
}
