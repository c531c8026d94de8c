/** Bytes, optional values and the little arithmetic the other modules share. */
module Common {

  type byte = b: int | 0 <= b < 256

  type Bytes = seq<byte>

  const TWO16: nat := 0x1_0000
  const TWO32: nat := 0x1_0000_0000

  // Sizes of a product's base name and of its communications control block.
  const FBASENAME_SIZE: nat := 36
  const CCB_SIZE: nat := 24

  datatype Option<+T> = None | Some(value: T)

  /** The concatenation of a list of byte strings. */
  function Concat(parts: seq<Bytes>): Bytes
  {
    if parts == [] then [] else parts[0] + Concat(parts[1..])
  }

  lemma {:induction false} ConcatAppend(a: seq<Bytes>, b: seq<Bytes>)
    ensures Concat(a + b) == Concat(a) + Concat(b)
  {
    if a == [] {
      assert a + b == b;
    } else {
      assert (a + b)[1..] == a[1..] + b;
      ConcatAppend(a[1..], b);
    }
  }

  lemma ConcatSnoc(parts: seq<Bytes>, last: Bytes)
    ensures Concat(parts + [last]) == Concat(parts) + last
  {
    ConcatAppend(parts, [last]);
    assert Concat([last]) == last;
  }

  function Min(a: int, b: int): int { if a <= b then a else b }

  function Max(a: int, b: int): int { if a <= b then b else a }

  lemma Regrouped<T>(a: seq<T>, b: seq<T>, c: seq<T>)
    ensures (a + b) + c == a + (b + c)
  {
  }
}
