/** The distance the tree is built with: bitlevenshtein in
    pymvptree/mvpwrapper.c, which despite its name is a bytewise Hamming
    distance in which every byte position covered by only one of the two
    payloads costs a flat 8. */
module Metric {
  import opened Bits

  function Max(x: nat, y: nat): nat { if x >= y then x else y }
  function Min(x: nat, y: nat): nat { if x <= y then x else y }

  /** What byte position `i` contributes to the distance of `a` and `b`. */
  function PositionCost(a: seq<Byte>, b: seq<Byte>, i: nat): nat
  {
    if i < |a| && i < |b| then ByteDistance(a[i], b[i])
    else if i < |a| || i < |b| then 8
    else 0
  }

  /** Sum of the position costs below `k`. */
  function CostBelow(a: seq<Byte>, b: seq<Byte>, k: nat): nat
  {
    if k == 0 then 0 else CostBelow(a, b, k - 1) + PositionCost(a, b, k - 1)
  }

  /** The distance: every position below the longer payload's length. */
  function Distance(a: seq<Byte>, b: seq<Byte>): nat
  {
    CostBelow(a, b, Max(|a|, |b|))
  }

  /** Bit Hamming distance of two payloads of equal length, an independent
      reference definition. */
  function Hamming(x: seq<Byte>, y: seq<Byte>): nat
    requires |x| == |y|
  {
    if |x| == 0 then 0 else ByteDistance(x[0], y[0]) + Hamming(x[1..], y[1..])
  }

  // ---------------------------------------------------------------------
  // Facts about partial sums

  /** No byte position costs more than 8. */
  lemma PositionCostAtMost(a: seq<Byte>, b: seq<Byte>, i: nat)
    ensures PositionCost(a, b, i) <= 8
  {
    if i < |a| && i < |b| {
      ByteDistanceRange(a[i], b[i]);
    }
  }

  lemma {:induction false} CostBelowAtMost(a: seq<Byte>, b: seq<Byte>, k: nat)
    ensures CostBelow(a, b, k) <= 8 * k
  {
    if k > 0 {
      CostBelowAtMost(a, b, k - 1);
      PositionCostAtMost(a, b, k - 1);
    }
  }

  lemma {:induction false} CostBelowAtLeast(a: seq<Byte>, b: seq<Byte>, k: nat, i: nat)
    requires i < k
    ensures PositionCost(a, b, i) <= CostBelow(a, b, k)
  {
    if i < k - 1 {
      CostBelowAtLeast(a, b, k - 1, i);
    }
  }

  lemma {:induction false} CostBelowSymmetric(a: seq<Byte>, b: seq<Byte>, k: nat)
    ensures CostBelow(a, b, k) == CostBelow(b, a, k)
  {
    if k > 0 {
      CostBelowSymmetric(a, b, k - 1);
    }
  }

  /** Positions beyond both payloads cost nothing, so any window that
      covers both payloads gives the distance. */
  lemma {:induction false} CostBelowBeyond(a: seq<Byte>, b: seq<Byte>, k: nat)
    requires k >= Max(|a|, |b|)
    ensures CostBelow(a, b, k) == Distance(a, b)
  {
    if k > Max(|a|, |b|) {
      CostBelowBeyond(a, b, k - 1);
    }
  }

  /** The common prefix is charged its bit Hamming distance. */
  lemma {:induction false} CostBelowPrefix(a: seq<Byte>, b: seq<Byte>, k: nat)
    requires k <= |a| && k <= |b|
    ensures CostBelow(a, b, k) == HammingBack(a[..k], b[..k])
  {
    if k > 0 {
      CostBelowPrefix(a, b, k - 1);
      assert a[..k][..k - 1] == a[..k - 1];
      assert b[..k][..k - 1] == b[..k - 1];
    }
  }

  /** Hamming distance summed from the back; equal to Hamming. */
  function HammingBack(x: seq<Byte>, y: seq<Byte>): nat
    requires |x| == |y|
  {
    if |x| == 0 then 0
    else HammingBack(x[..|x| - 1], y[..|y| - 1]) + ByteDistance(x[|x| - 1], y[|y| - 1])
  }

  lemma {:induction false} HammingBackIsHamming(x: seq<Byte>, y: seq<Byte>)
    requires |x| == |y|
    ensures HammingBack(x, y) == Hamming(x, y)
  {
    if |x| > 1 {
      var n := |x|;
      HammingBackIsHamming(x[..n - 1], y[..n - 1]);
      HammingBackIsHamming(x[1..], y[1..]);
      HammingBackIsHamming(x[1..][..n - 2], y[1..][..n - 2]);
      assert x[..n - 1][1..] == x[1..][..n - 2];
      assert y[..n - 1][1..] == y[1..][..n - 2];
    }
  }

  /** Past the shorter payload every position costs 8. */
  lemma {:induction false} CostBelowTail(a: seq<Byte>, b: seq<Byte>, k: nat)
    requires Min(|a|, |b|) <= k <= Max(|a|, |b|)
    ensures CostBelow(a, b, k)
         == CostBelow(a, b, Min(|a|, |b|)) + 8 * (k - Min(|a|, |b|))
  {
    if k > Min(|a|, |b|) {
      CostBelowTail(a, b, k - 1);
    }
  }

  // ---------------------------------------------------------------------
  // The properties the pruning of the tree depends on

  /** The distance is the bit Hamming distance over the common prefix plus 8
      for every byte of the longer payload beyond the shorter one. */
  lemma Decomposition(a: seq<Byte>, b: seq<Byte>)
    ensures var m := Min(|a|, |b|);
            Distance(a, b) == Hamming(a[..m], b[..m]) + 8 * (Max(|a|, |b|) - m)
  {
    var m := Min(|a|, |b|);
    CostBelowTail(a, b, Max(|a|, |b|));
    CostBelowPrefix(a, b, m);
    HammingBackIsHamming(a[..m], b[..m]);
  }

  /** For payloads of equal length the distance is the bit Hamming distance. */
  lemma EqualLengthIsHamming(a: seq<Byte>, b: seq<Byte>)
    requires |a| == |b|
    ensures Distance(a, b) == Hamming(a, b)
  {
    Decomposition(a, b);
    assert a[..|a|] == a && b[..|b|] == b;
  }

  lemma DistanceSymmetric(a: seq<Byte>, b: seq<Byte>)
    ensures Distance(a, b) == Distance(b, a)
  {
    CostBelowSymmetric(a, b, Max(|a|, |b|));
  }

  lemma DistanceBounds(a: seq<Byte>, b: seq<Byte>)
    ensures 0 <= Distance(a, b) <= 8 * Max(|a|, |b|)
  {
    CostBelowAtMost(a, b, Max(|a|, |b|));
  }

  lemma {:induction false} CostBelowSelf(a: seq<Byte>, k: nat)
    ensures CostBelow(a, a, k) == 0
  {
    if k > 0 {
      CostBelowSelf(a, k - 1);
    }
  }

  /** The distance is 0 exactly when the payloads are byte for byte the same,
      length included. */
  lemma DistanceZeroIff(a: seq<Byte>, b: seq<Byte>)
    ensures Distance(a, b) == 0 <==> a == b
  {
    if a == b {
      CostBelowSelf(a, |a|);
    } else if Distance(a, b) == 0 {
      var n := Max(|a|, |b|);
      if |a| != |b| {
        CostBelowAtLeast(a, b, n, Min(|a|, |b|));
        assert false;
      }
      forall i | 0 <= i < |a|
        ensures a[i] == b[i]
      {
        CostBelowAtLeast(a, b, n, i);
        ByteDistanceRange(a[i], b[i]);
      }
      assert false;
    }
  }

  lemma PositionTriangle(a: seq<Byte>, b: seq<Byte>, c: seq<Byte>, i: nat)
    ensures PositionCost(a, c, i) <= PositionCost(a, b, i) + PositionCost(b, c, i)
  {
    if i < |a| && i < |b| && i < |c| {
      CoveredTriangle(a, b, c, i);
    } else if i < |a| && i < |c| {
      assert PositionCost(a, b, i) == 8;
      ByteDistanceRange(a[i], c[i]);
    } else if i < |a| || i < |c| {
      assert PositionCost(a, c, i) == 8;
      assert PositionCost(a, b, i) == 8 || PositionCost(b, c, i) == 8;
    } else {
      assert PositionCost(a, c, i) == 0;
    }
  }

  /** At a position all three payloads cover, the costs are byte distances. */
  lemma CoveredTriangle(a: seq<Byte>, b: seq<Byte>, c: seq<Byte>, i: nat)
    requires i < |a| && i < |b| && i < |c|
    ensures PositionCost(a, c, i) <= PositionCost(a, b, i) + PositionCost(b, c, i)
  {
    ByteDistanceTriangle(a[i], b[i], c[i]);
  }

  lemma {:induction false} CostBelowTriangle(a: seq<Byte>, b: seq<Byte>, c: seq<Byte>, k: nat)
    ensures CostBelow(a, c, k) <= CostBelow(a, b, k) + CostBelow(b, c, k)
  {
    if k > 0 {
      CostBelowTriangle(a, b, c, k - 1);
      PositionTriangle(a, b, c, k - 1);
    }
  }

  /** The triangle inequality, which makes the distance a metric the tree may
      prune with. */
  lemma Triangle(a: seq<Byte>, b: seq<Byte>, c: seq<Byte>)
    ensures Distance(a, c) <= Distance(a, b) + Distance(b, c)
  {
    var k := Max(Max(|a|, |b|), |c|);
    CostBelowTriangle(a, b, c, k);
    CostBelowBeyond(a, c, k);
    CostBelowBeyond(a, b, k);
    CostBelowBeyond(b, c, k);
  }
}
