/** Small shared vocabulary: an optional value, a byte, and the concatenation of parts. */
module Common {

  /** Python's `Optional[T]`: `None`, or a present value. */
  datatype Option<+T> = None | Some(value: T)

  /** One byte of an encoded buffer. */
  type Byte = b: int | 0 <= b < 256

  /** The concatenation of a sequence of sequences, in order (`b"".join(parts)`). */
  function Flatten<T>(parts: seq<seq<T>>): seq<T>
  {
    if parts == [] then [] else parts[0] + Flatten(parts[1..])
  }

  /** Appending one more part appends its elements at the end. */
  lemma {:induction false} FlattenSnoc<T>(parts: seq<seq<T>>, last: seq<T>)
    ensures Flatten(parts + [last]) == Flatten(parts) + last
  {
    if parts == [] {
      assert parts + [last] == [last];
    } else {
      assert (parts + [last])[1..] == parts[1..] + [last];
      FlattenSnoc(parts[1..], last);
    }
  }

  /** Some element of a non-empty set. */
  method Pick<T>(s: set<T>) returns (x: T)
    requires s != {}
    ensures x in s
  {
    x :| x in s;
  }

  function Min(a: int, b: int): int
  {
    if a <= b then a else b
  }

  function Max(a: int, b: int): int
  {
    if a >= b then a else b
  }
}
