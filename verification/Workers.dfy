/** The strided split of work over goroutines. */
module Workers {

  /** The call at position p of worker w. */
  predicate IsCall(calls: seq<seq<nat>>, w: int, p: int) {
    0 <= w < |calls| && 0 <= p < |calls[w]|
  }

  ghost predicate IsCalled(calls: seq<seq<nat>>, i: nat) {
    exists w, p :: IsCall(calls, w, p) && calls[w][p] == i
  }

  ghost function Index(w: int, p: int, stride: int): int {
    w + p * stride
  }

  lemma NextIndex(w: nat, p: nat, stride: nat)
    ensures Index(w, 0, stride) == w
    ensures Index(w, p + 1, stride) == Index(w, p, stride) + stride
  {
    assert (p + 1) * stride == p * stride + stride;
  }

  /** Worker w takes every stride-th index from w on. */
  ghost predicate TakesStride(mine: seq<nat>, w: nat, stride: nat, n: nat) {
    && (forall q | 0 <= q < |mine| :: mine[q] == Index(w, q, stride) < n)
    && Index(w, |mine|, stride) >= n
  }

  /** One goroutine's loop. */
  method Worker(w: nat, stride: nat, n: nat) returns (mine: seq<nat>)
    requires stride > 0
    ensures TakesStride(mine, w, stride, n)
  {
    hide Index;
    mine := [];
    var i := w;
    NextIndex(w, 0, stride);
    while i < n
      invariant i == Index(w, |mine|, stride)
      invariant forall q | 0 <= q < |mine| :: mine[q] == Index(w, q, stride) < n
      decreases if i < n then n - i else 0
    {
      NextIndex(w, |mine|, stride);
      mine := mine + [i];
      i := i + stride;
    }
  }

  /**
   Calls fn for every index below n on up to workers goroutines. calls[w] is what goroutine w calls, in order.
   Together they call every index exactly once and no other, so results written by index never collide.
   */
  method Each(n: nat, workers: nat) returns (calls: seq<seq<nat>>)
    requires workers > 0
    ensures |calls| == if workers < n then workers else n
    ensures forall w, p | IsCall(calls, w, p) :: calls[w][p] < n
    ensures forall i: nat :: i < n <==> IsCalled(calls, i)
    ensures forall w, p, v, q | IsCall(calls, w, p) && IsCall(calls, v, q) && calls[w][p] == calls[v][q] ::
        w == v && p == q
  {
    var stride := if workers < n then workers else n;
    calls := [];
    for w := 0 to stride
      invariant |calls| == w
      invariant forall v | 0 <= v < w :: TakesStride(calls[v], v, stride, n)
    {
      var mine := Worker(w, stride, n);
      calls := calls + [mine];
    }
    EveryIndexOnce(calls, stride, n);
  }

  lemma EveryIndexOnce(calls: seq<seq<nat>>, stride: nat, n: nat)
    requires |calls| == stride <= n && (n > 0 ==> stride > 0)
    requires forall v | 0 <= v < stride :: TakesStride(calls[v], v, stride, n)
    ensures forall w, p | IsCall(calls, w, p) :: calls[w][p] < n
    ensures forall i: nat :: i < n <==> IsCalled(calls, i)
    ensures forall w, p, v, q | IsCall(calls, w, p) && IsCall(calls, v, q) && calls[w][p] == calls[v][q] ::
        w == v && p == q
  {
    hide Index;
    forall i: nat | i < n ensures IsCalled(calls, i) {
      var w := i % stride;
      assert TakesStride(calls[w], w, stride, n);
      Stride(i, stride, |calls[w]|, n);
      assert IsCall(calls, w, i / stride) && calls[w][i / stride] == i;
    }
    forall w, p, v, q | IsCall(calls, w, p) && IsCall(calls, v, q) && calls[w][p] == calls[v][q]
      ensures w == v && p == q
    {
      assert TakesStride(calls[w], w, stride, n) && TakesStride(calls[v], v, stride, n);
      StrideIsUnique(w, p, v, q, stride);
    }
  }

  lemma AtLeastOnce(times: int, stride: nat)
    requires times >= 1
    ensures times * stride >= stride
  {
  }

  lemma Stride(i: nat, stride: nat, count: nat, n: nat)
    requires 0 < stride && i < n && Index(i % stride, count, stride) >= n
    ensures i == Index(i % stride, i / stride, stride) && i / stride < count
  {
    var whole := i / stride;
    assert i == i % stride + whole * stride;
    if whole >= count {
      SameStride(whole, count, stride);
    }
  }

  lemma SameStride(p: int, q: int, stride: nat)
    requires p >= q
    ensures p * stride >= q * stride
    ensures p > q ==> p * stride >= q * stride + stride
  {
    assert p * stride == q * stride + (p - q) * stride;
    if p > q {
      AtLeastOnce(p - q, stride);
    }
  }

  lemma StrideIsUnique(w: int, p: int, v: int, q: int, stride: nat)
    requires 0 <= w < stride && 0 <= v < stride && Index(w, p, stride) == Index(v, q, stride)
    ensures w == v && p == q
  {
    if p >= q {
      SameStride(p, q, stride);
    } else {
      SameStride(q, p, stride);
    }
  }
}
