/** Sequence helpers the line-by-line readers share. */
module Seqs {

  /** Each element of `xs` replaced by the sequence `f` makes of it, in
      order: how the checker reads a block one line at a time. */
  function FlatMap<A, B>(f: A -> seq<B>, xs: seq<A>): seq<B>
    decreases |xs|
  {
    if |xs| == 0 then [] else f(xs[0]) + FlatMap(f, xs[1..])
  }

  /** Reading a block in two pieces gives the two readings one after the
      other. */
  lemma {:induction false} FlatMapAppend<A, B>(f: A -> seq<B>, a: seq<A>, b: seq<A>)
    ensures FlatMap(f, a + b) == FlatMap(f, a) + FlatMap(f, b)
    decreases |a|
  {
    if |a| == 0 {
      assert a + b == b;
    } else {
      assert (a + b)[1..] == a[1..] + b;
      FlatMapAppend(f, a[1..], b);
    }
  }

  /** Reading a block whose first element is `x`. */
  lemma FlatMapCons<A, B>(f: A -> seq<B>, x: A, rest: seq<A>)
    ensures FlatMap(f, [x] + rest) == f(x) + FlatMap(f, rest)
  {
    assert ([x] + rest)[1..] == rest;
  }

  /** Appending to a non-empty sequence keeps its head and extends its tail. */
  lemma ConsAppend<T>(a: seq<T>, b: seq<T>)
    requires |a| > 0
    ensures (a + b)[0] == a[0] && (a + b)[1..] == a[1..] + b
  {
  }

  /** Sequences related index by index stay related when appended. */
  lemma PointwiseAppend<A, B>(rel: (A, B) -> bool, x: seq<A>, y: seq<A>, vx: seq<B>, vy: seq<B>)
    requires |x| == |vx| && |y| == |vy|
    requires forall k :: 0 <= k < |x| ==> rel(x[k], vx[k])
    requires forall k :: 0 <= k < |y| ==> rel(y[k], vy[k])
    ensures forall k :: 0 <= k < |x + y| ==> rel((x + y)[k], (vx + vy)[k])
  {
    forall k | 0 <= k < |x + y|
      ensures rel((x + y)[k], (vx + vy)[k])
    {
      if k < |x| {
        assert (x + y)[k] == x[k] && (vx + vy)[k] == vx[k];
      } else {
        assert (x + y)[k] == y[k - |x|] && (vx + vy)[k] == vy[k - |x|];
      }
    }
  }

  /** Sequences that agree at every index are equal. */
  lemma SameElements<T>(a: seq<T>, b: seq<T>)
    requires |a| == |b| && forall k :: 0 <= k < |a| ==> a[k] == b[k]
    ensures a == b
  {
  }

  /** A non-empty sequence is its head followed by its tail. */
  lemma HeadTail<T>(s: seq<T>)
    requires |s| > 0
    ensures s == [s[0]] + s[1..]
  {
  }
}
