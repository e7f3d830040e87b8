/** Datatypes and sequence facts shared by the component models. */
module Common {
  datatype Option<+T> = None | Some(value: T)

  /** io.EOF, or any other error. */
  datatype Error = EOF | Failure(msg: string)

  const TWO62 := 0x4000_0000_0000_0000
  const TWO63 := 0x8000_0000_0000_0000
  const TWO64 := 0x1_0000_0000_0000_0000

  type I64 = x: int | -TWO63 <= x < TWO63 witness 0
  type U64 = x: int | 0 <= x < TWO64 witness 0

  /** Conversion to int64. */
  function WrapI64(x: int): I64 {
    (x + TWO63) % TWO64 - TWO63
  }

  /** Conversion to uint64. */
  function WrapU64(x: int): U64 {
    x % TWO64
  }

  function Max(a: int, b: int): int {
    if a < b then b else a
  }

  newtype byte = x: int | 0 <= x < 256
  type Bytes = seq<byte>

  /** The chunks laid end to end. */
  function Concat<T>(chunks: seq<seq<T>>): seq<T> {
    if chunks == [] then [] else chunks[0] + Concat(chunks[1..])
  }

  lemma {:induction false} ConcatAppend<T>(a: seq<seq<T>>, b: seq<seq<T>>)
    ensures Concat(a + b) == Concat(a) + Concat(b)
  {
    if a == [] {
      assert a + b == b;
    } else {
      assert (a + b)[1..] == a[1..] + b;
      ConcatAppend(a[1..], b);
    }
  }

  lemma ConcatSnoc<T>(a: seq<seq<T>>, x: seq<T>)
    ensures Concat(a + [x]) == Concat(a) + x
  {
    ConcatAppend(a, [x]);
    assert [x][1..] == [];
    assert Concat([x]) == x;
  }
}
