// Division and remainder facts the layout and probing proofs share.
module Arith {

  ghost predicate IsPow2(n: nat) {
    n == 1 || (n > 1 && n % 2 == 0 && IsPow2(n / 2))
  }

  lemma MulMono(a: int, b: int, n: nat)
    requires a <= b
    ensures a * n <= b * n
  {
    assert (b - a) * n >= 0;
  }

  // Quotient and remainder are the only pair that fits.
  lemma DivModUnique(x: int, q: int, r: int, n: int)
    requires n > 0 && 0 <= r < n && x == q * n + r
    ensures x / n == q && x % n == r
  {
    var p := x / n;
    if p < q {
      MulMono(p + 1, q, n);
    } else if q < p {
      MulMono(q + 1, p, n);
    }
  }

  lemma ModAdd(a: int, b: int, n: int)
    requires n > 0
    ensures (a % n + b) % n == (a + b) % n
  {
    var q, p := a / n, (a % n + b) / n;
    assert (p + q) * n == p * n + q * n;
    DivModUnique(a + b, p + q, (a % n + b) % n, n);
  }

  lemma ModMultiple(k: int, n: int)
    requires n > 0
    ensures (k * n) % n == 0 && (k * n) / n == k
  {
    DivModUnique(k * n, k, 0, n);
  }

  lemma DivBound(x: nat, q: nat, n: nat)
    requires n > 0 && x < q * n
    ensures x / n < q
  {
    if x / n >= q {
      MulMono(q, x / n, n);
    }
  }

  lemma SameRemainder(x: int, y: int, n: int) returns (k: int)
    requires n > 0 && x % n == y % n
    ensures y - x == k * n
  {
    k := y / n - x / n;
    assert y - x == (y / n) * n - (x / n) * n;
  }

  // x is 0, n, 2n, ...
  ghost predicate Multiple(x: nat, n: nat)
    requires n > 0
  {
    x == 0 || (x >= n && Multiple(x - n, n))
  }

  lemma {:induction false} MultipleIsMod(x: nat, n: nat)
    requires n > 0
    ensures Multiple(x, n) <==> x % n == 0
  {
    if x >= n {
      MultipleIsMod(x - n, n);
      ModMinus(x, n);
    } else {
      DivModUnique(x, 0, x, n);
    }
  }

  lemma ModMinus(x: nat, n: nat)
    requires n > 0 && x >= n
    ensures (x - n) % n == x % n
  {
    DivModUnique(x - n, x / n - 1, x % n, n);
  }

  // Multiples are at least a step apart.
  lemma {:induction false} MultipleGap(x: nat, y: nat, n: nat)
    requires n > 0 && Multiple(x, n) && Multiple(y, n) && x < y
    ensures x + n <= y
  {
    if x > 0 { MultipleGap(x - n, y - n, n); }
  }

  lemma {:induction false} Pow2Mul(p: nat, q: nat)
    requires IsPow2(p) && IsPow2(q)
    ensures IsPow2(p * q)
  {
    if p > 1 {
      var h := p / 2;
      Pow2Mul(h, q);
      assert p * q == 2 * (h * q);
    }
  }

  lemma Pow2Constants()
    ensures IsPow2(16) && IsPow2(32) && IsPow2(2048) && IsPow2(0x1_0000) && IsPow2(0x4000_0000) && IsPow2(0x1_0000_0000)
  {
    assert IsPow2(1) && IsPow2(2) && IsPow2(4) && IsPow2(8) && IsPow2(16) && IsPow2(32) && IsPow2(64);
    Pow2Mul(16, 16);
    Pow2Mul(256, 256);
    Pow2Mul(0x1_0000, 0x1_0000);
    Pow2Mul(32, 64);
    Pow2Mul(256, 64);
    Pow2Mul(0x1_0000, 256 * 64);
  }

  // The smaller of two powers of two divides the larger.
  lemma {:induction false} Pow2Divides(p: nat, q: nat) returns (k: nat)
    requires IsPow2(p) && IsPow2(q) && p <= q
    ensures q == k * p
  {
    if p == 1 {
      return q;
    }
    k := Pow2Divides(p / 2, q / 2);
    assert k * p == 2 * (k * (p / 2));
  }

  lemma ModOfMod(x: nat, k: nat, n: nat)
    requires n > 0 && k > 0
    ensures k * n > 0 && (x % (k * n)) % n == x % n
  {
    MulMono(1, k, n);
    var m := k * n;
    var q, r := x / m, x % m;
    assert x == q * m + r;
    assert q * m == (q * k) * n;
    var a, b := r / n, r % n;
    assert x == (q * k + a) * n + b by { assert (q * k + a) * n == (q * k) * n + a * n; }
    DivModUnique(x, q * k + a, b, n);
  }
}
