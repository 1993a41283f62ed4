/** Bytes, C integer widths and the failure type shared by every module. */
module Bytes {
  type byte = b: int | 0 <= b < 256

  const U32: nat := 0x1_0000_0000
  const U64: nat := 0x1_0000_0000_0000_0000

  /** Conversion to `uint32_t`. */
  function ToU32(n: int): (r: nat)
    ensures r < U32
  {
    if 0 <= n < U32 then n else n % 0x1_0000_0000
  }

  datatype Option<+T> = None | Some(value: T)
  {
    predicate IsFailure() { None? }
    function PropagateFailure<U>(): Option<U> requires None? { None }
    function Extract(): T requires Some? { value }
  }

  /** No element occurs twice. */
  ghost predicate Distinct<T>(xs: seq<T>) {
    forall i, j :: 0 <= i < j < |xs| ==> xs[i] != xs[j]
  }

  /** The concatenation of the images of `xs`. */
  function Flat<T>(xs: seq<T>, w: T -> seq<byte>): seq<byte> {
    if xs == [] then [] else w(xs[0]) + Flat(xs[1..], w)
  }

  lemma {:induction false} FlatConcat<T>(xs: seq<T>, ys: seq<T>, w: T -> seq<byte>)
    ensures Flat(xs + ys, w) == Flat(xs, w) + Flat(ys, w)
  {
    if xs == [] {
      assert xs + ys == ys;
    } else {
      FlatConcat(xs[1..], ys, w);
      assert (xs + ys)[1..] == xs[1..] + ys && (xs + ys)[0] == xs[0];
      Assoc(w(xs[0]), Flat(xs[1..], w), Flat(ys, w));
    }
  }

  lemma FlatSnoc<T>(xs: seq<T>, x: T, w: T -> seq<byte>)
    ensures Flat(xs + [x], w) == Flat(xs, w) + w(x)
  {
    FlatConcat(xs, [x], w);
    assert [x][1..] == [];
  }

  lemma Assoc<T>(a: seq<T>, b: seq<T>, c: seq<T>)
    ensures a + b + c == a + (b + c)
  {}
}
