/** Small value-level helpers shared by the rest of the model. */
module Prelude {

  /** JavaScript's `null`/`undefined` versus a present value. */
  datatype Option<+T> = None | Some(value: T)

  /** `Math.max` on two integers. */
  function Max(a: int, b: int): int
  {
    if a < b then b else a
  }

  /** `Math.min` on two reals. */
  function MinReal(a: real, b: real): real
  {
    if a < b then a else b
  }

  /** `Math.max` on two reals. */
  function MaxReal(a: real, b: real): real
  {
    if a < b then b else a
  }

  /** The concatenation of a sequence of sequences, built from the right so that
      appending one more piece is one unfolding. */
  function Flatten<T>(ss: seq<seq<T>>): seq<T>
  {
    if ss == [] then [] else Flatten(ss[..|ss| - 1]) + ss[|ss| - 1]
  }

  /** Three pieces flatten to their concatenation. */
  lemma FlattenThree<T>(a: seq<T>, b: seq<T>, c: seq<T>)
    ensures Flatten([a, b, c]) == a + b + c
  {
    var none: seq<seq<T>> := [];
    assert [a, b, c][..2] == [a, b];
    assert [a, b][..1] == [a];
    assert [a][..0] == none;
    assert Flatten([a]) == Flatten(none) + a;
    assert Flatten([a, b]) == Flatten([a]) + b;
    assert Flatten([a, b, c]) == Flatten([a, b]) + c;
  }

  lemma {:induction false} FlattenAppend<T>(a: seq<seq<T>>, b: seq<seq<T>>)
    ensures Flatten(a + b) == Flatten(a) + Flatten(b)
    decreases |b|
  {
    if b == [] {
      assert a + b == a;
    } else {
      var n := |b| - 1;
      assert (a + b)[..|a + b| - 1] == a + b[..n];
      FlattenAppend(a, b[..n]);
    }
  }

  lemma {:induction false} FlattenLength<T>(ss: seq<seq<T>>, k: nat)
    requires forall i :: 0 <= i < |ss| ==> |ss[i]| == k
    ensures |Flatten(ss)| == |ss| * k
    decreases |ss|
  {
    if ss != [] {
      var n := |ss| - 1;
      assert forall i :: 0 <= i < n ==> ss[..n][i] == ss[i];
      FlattenLength(ss[..n], k);
      assert Flatten(ss) == Flatten(ss[..n]) + ss[n];
    }
  }
}
