/** Small shared vocabulary: optional values, results, bytes, and the concatenation of chunks. */
module Common {

  datatype Option<+T> = None | Some(value: T)

  datatype Result<+T, +E> = Ok(value: T) | Err(error: E)

  /** UUIDs, token hashes and other opaque identifiers: all that matters is whether two are equal. */
  type Id = string

  type Byte = b: int | 0 <= b < 256

  type Bytes = seq<Byte>

  const NEWLINE: Byte := 10

  const BYTE_ORDER_MARK: char := '\U{FEFF}'

  function WithoutMark(s: string): string {
    if s != [] && s[0] == BYTE_ORDER_MARK then s[1..] else s
  }

  /** A fatal text decoder in its default mode, which swallows one leading byte order mark. */
  function DecodeText(utf8: Bytes -> Option<string>, bytes: Bytes): Option<string> {
    match utf8(bytes)
    case None => None
    case Some(s) => Some(WithoutMark(s))
  }

  /** The chunks laid end to end. */
  function Flatten<T>(chunks: seq<seq<T>>): seq<T> {
    if chunks == [] then [] else chunks[0] + Flatten(chunks[1..])
  }

  lemma {:induction false} FlattenAppend<T>(a: seq<seq<T>>, b: seq<seq<T>>)
    ensures Flatten(a + b) == Flatten(a) + Flatten(b)
  {
    if a == [] {
      assert a + b == b;
    } else {
      assert (a + b)[0] == a[0] && (a + b)[1..] == a[1..] + b;
      FlattenAppend(a[1..], b);
    }
  }

  lemma {:induction false} FlattenSnoc<T>(a: seq<seq<T>>, chunk: seq<T>)
    ensures Flatten(a + [chunk]) == Flatten(a) + chunk
  {
    FlattenAppend(a, [chunk]);
    assert Flatten([chunk]) == chunk + Flatten([]);
  }
}
