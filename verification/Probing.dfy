// The probe sequence shared by every loop of StringMap.cpp: starting from the
// hash, the k-th step moves k buckets further, modulo the bucket count.  The
// arithmetic facts here are what makes those loops terminate.
module Probing {

  import opened Arith

  // Sum of the first j step sizes, 1 + 2 + ... + j.
  ghost function Tri(j: nat): nat {
    if j == 0 then 0 else Tri(j - 1) + j
  }

  // The bucket looked at by probe number j of a key with hash h.
  ghost function Slot(h: nat, j: nat, n: nat): (b: nat)
    requires n > 0
    ensures b < n
  {
    (h + Tri(j)) % n
  }

  lemma {:induction false} TriClosed(j: nat)
    ensures 2 * Tri(j) == j * (j + 1)
  {
    if j > 0 {
      TriClosed(j - 1);
    }
  }

  // Each failed probe moves on by one bucket more than the last one did, masked to the table.
  lemma SlotStep(h: nat, j: nat, n: nat)
    requires n > 0
    ensures (Slot(h, j, n) + (j + 1)) % n == Slot(h, j + 1, n)
    ensures Slot(h, 0, n) == h % n
  {
    ModAdd(h + Tri(j), j + 1, n);
  }

  // An odd factor contributes nothing to divisibility by a power of two.
  lemma {:induction false} OddFactor(a: nat, b: nat, m: nat, k: nat) returns (c: nat)
    requires IsPow2(m) && a % 2 == 1 && a * b == k * m
    ensures b == c * m
  {
    if m == 1 {
      return b;
    }
    var n := m / 2;
    assert a * b == 2 * (k * n);
    if b % 2 == 1 { OddTimesOdd(a, b); }
    var d := b / 2;
    assert a * d == k * n by {
      assert a * b == a * (2 * d) == 2 * (a * d);
    }
    c := OddFactor(a, d, n, k);
    assert 2 * (c * n) == c * (2 * n);
  }

  lemma OddTimesOdd(a: nat, b: nat)
    requires a % 2 == 1 && b % 2 == 1
    ensures (a * b) % 2 == 1
  {
    var y := b / 2;
    assert a * b == a * (2 * y) + a == 2 * (a * y) + a;
  }

  lemma Pow2Double(n: nat)
    requires IsPow2(n)
    ensures IsPow2(2 * n) && n > 0
  {
  }

  // Two probes of one table length never land in the same bucket.
  lemma SlotInjective(h: nat, i: nat, j: nat, n: nat)
    requires IsPow2(n) && i < j < n
    ensures Slot(h, i, n) != Slot(h, j, n)
  {
    TriDifference(i, j);
    NotCongruent(h + Tri(i), h + Tri(j), j - i, j + i + 1, n);
  }

  lemma NotCongruent(x: nat, y: nat, lo: nat, hi: nat, n: nat)
    requires IsPow2(n) && 0 < lo < 2 * n && 0 < hi < 2 * n && lo % 2 != hi % 2
    requires 2 * (y - x) == lo * hi
    ensures x % n != y % n
  {
    if x % n == y % n {
      var k := SameRemainder(x, y, n);
      TwiceProduct(k, n);
      OddEvenSpan(lo, hi, k, n);
    }
  }

  lemma TwiceProduct(k: int, n: int)
    ensures 2 * (k * n) == k * (2 * n)
  {
  }

  // Two factors of opposite parity below 2n never multiply to a multiple of
  // the power of two 2n.
  lemma OddEvenSpan(lo: nat, hi: nat, k: int, n: nat)
    requires IsPow2(n) && 0 < lo < 2 * n && 0 < hi < 2 * n && lo % 2 != hi % 2
    ensures lo * hi != k * (2 * n)
  {
    if lo * hi == k * (2 * n) {
      if k <= 0 {
        MulMono(k, 0, 2 * n);
        MulMono(1, lo, hi);
      }
      Pow2Double(n);
      if lo % 2 == 1 {
        var c := OddFactor(lo, hi, 2 * n, k);
        NoMultipleInside(c, hi, 2 * n);
      } else {
        var c := OddFactor(hi, lo, 2 * n, k);
        NoMultipleInside(c, lo, 2 * n);
      }
    }
  }

  lemma NoMultipleInside(c: nat, x: nat, m: nat)
    requires 0 < x < m
    ensures x != c * m
  {
    if c > 0 { MulMono(1, c, m); }
  }

  lemma TriDifference(i: nat, j: nat)
    requires i < j
    ensures 2 * (Tri(j) - Tri(i)) == (j - i) * (j + i + 1)
  {
    TriClosed(i);
    TriClosed(j);
    assert (j - i) * (j + i + 1) == (j - i) * (j + i) + (j - i);
    assert (j - i) * (j + i) == j * j - i * i;
  }

  ghost function Visited(h: nat, k: nat, n: nat): (s: set<nat>)
    requires n > 0
  {
    set j: nat | j < k :: Slot(h, j, n)
  }

  lemma {:induction false} VisitedCard(h: nat, k: nat, n: nat)
    requires IsPow2(n) && k <= n
    ensures |Visited(h, k, n)| == k
  {
    if k > 0 {
      VisitedCard(h, k - 1, n);
      forall j: nat | j < k - 1 ensures Slot(h, j, n) != Slot(h, k - 1, n) {
        SlotInjective(h, j, k - 1, n);
      }
      assert Visited(h, k, n) == Visited(h, k - 1, n) + {Slot(h, k - 1, n)};
    } else {
      assert Visited(h, 0, n) == {};
    }
  }

  ghost function Below(n: nat): (s: set<nat>)
    ensures |s| == n && forall b: nat :: b in s <==> b < n
  {
    if n == 0 then {} else Below(n - 1) + {n - 1}
  }

  lemma SubsetSameCard(a: set<nat>, b: set<nat>)
    requires a <= b && |a| == |b|
    ensures a == b
  {
    assert b == a + (b - a);
    assert |b| == |a| + |b - a|;
  }

  // Triangular probing over a power of two visits every bucket, and does so
  // within as many probes as there are buckets.
  lemma ProbeVisitsAll(h: nat, n: nat, b: nat)
    requires IsPow2(n) && b < n
    ensures exists j: nat :: j < n && Slot(h, j, n) == b
  {
    VisitedCard(h, n, n);
    assert Visited(h, n, n) <= Below(n);
    SubsetSameCard(Visited(h, n, n), Below(n));
    assert b in Visited(h, n, n);
  }
}
