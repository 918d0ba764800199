/** Powers, products and quotients: the nonlinear facts that the codecs need. */
module Arith {
  function Minus(a: nat, b: nat): nat { if a < b then 0 else a - b }

  function Times(a: nat, b: nat): nat { a * b }

  function Pow2(n: nat): (p: nat)
    ensures p >= 1
  {
    if n == 0 then 1 else 2 * Pow2(n - 1)
  }

  function Pow256(n: nat): (p: nat)
    ensures p >= 1
  {
    if n == 0 then 1 else 256 * Pow256(n - 1)
  }

  lemma MulMono(a: nat, b: nat, q: nat)
    requires a <= b
    ensures a * q <= b * q
  {}

  lemma MulSucc(q: int, c: int)
    ensures (q + 1) * c == q * c + c
  {}

  lemma DivUnique(x: int, q: int, c: int)
    requires c > 0 && q * c <= x < q * c + c
    ensures x / c == q && x % c == x - q * c
  {
    var d := x / c;
    assert d * c <= x < d * c + c;
    MulSucc(d, c);
    MulSucc(q, c);
    if d < q { MulMonoInt(d + 1, q, c); }
    if d > q { MulMonoInt(q + 1, d, c); }
  }

  lemma MulMonoInt(a: int, b: int, q: nat)
    requires a <= b
    ensures a * q <= b * q
  {}

  /** A multiple of the divisor comes out of a quotient. */
  lemma DivAdd(a: int, k: int, n: int)
    requires n > 0
    ensures (a * n + k) / n == a + k / n && (a * n + k) % n == k % n
  {
    var q := k / n;
    assert (a + q) * n == a * n + q * n;
    DivUnique(a * n + k, a + q, n);
  }

  /** A remainder by a divisor of `w` can be taken after reducing modulo `w`. */
  lemma ModOfMod(x: nat, w: nat, c: nat, k: nat)
    requires c > 0 && w == k * c && w > 0
    ensures x % w % c == x % c
  {
    var d, r := x / w, x % w;
    var q := d * k + r / c;
    assert d * w == d * k * c;
    assert q * c == d * k * c + r / c * c;
    DivUnique(x, q, c);
  }

  lemma Pow256Split(a: nat, b: nat)
    ensures Pow256(a + b) == Pow256(a) * Pow256(b)
  {
    if a > 0 {
      Pow256Split(a - 1, b);
      assert Pow256(a - 1 + b) * 256 == 256 * Pow256(a - 1) * Pow256(b);
    }
  }

  lemma {:induction false} Pow2Mono(a: nat, b: nat)
    requires a <= b
    ensures Pow2(a) <= Pow2(b)
    decreases b
  {
    if a < b { Pow2Mono(a, b - 1); }
  }

  lemma {:induction false} Pow2Split(a: nat, b: nat)
    ensures Pow2(a + b) == Pow2(a) * Pow2(b)
  {
    if a > 0 {
      Pow2Split(a - 1, b);
      assert 2 * (Pow2(a - 1) * Pow2(b)) == (2 * Pow2(a - 1)) * Pow2(b);
    }
  }

  lemma PowStep(m: nat, e: nat)
    ensures e > 0 ==> m * Pow2(e) == (2 * m) * Pow2(e - 1) <= (2 * m + 1) * Pow2(e - 1)
    ensures e == 0 ==> m * Pow2(e) == m
    ensures m * Pow2(e) >= m
  {
    if e > 0 { assert m * (2 * Pow2(e - 1)) == (2 * m) * Pow2(e - 1); }
    MulMono(1, Pow2(e), m);
  }

  lemma QuotientBelow(x: nat, b: nat, c: nat)
    requires c > 0 && x < b * c
    ensures x / c < b
  {
    var q := x / c;
    assert q * c <= x;
    if q >= b { MulMono(b, q, c); }
  }

  lemma QuotientAtLeast(x: nat, a: nat, p: nat)
    requires p > 0 && a * p <= x
    ensures a <= x / p
  {
    var q := x / p;
    assert x < q * p + p;
    MulSucc(q, p);
    if q + 1 <= a { MulMono(q + 1, a, p); }
  }

  /** The digit above `a` of a number, before or after reducing. */
  lemma DivOfMod(x: nat, a: nat, b: nat)
    requires a > 0 && b > 0
    ensures x % (a * b) / a == x / a % b
  {
    var q, r := x / (a * b), x % (a * b);
    assert x == q * (a * b) + r;
    QuotientBelow(r, b, a);
    assert q * (a * b) == (q * b) * a;
    var d := r / a;
    assert (q * b + d) * a == (q * b) * a + d * a;
    DivUnique(x, q * b + d, a);
    DivUnique(q * b + d, q, b);
  }

  lemma Pow2Of8(a: nat)
    requires a <= 8
    ensures Pow2(a) * Pow2(8 - a) == 256
  {
    Pow2Split(a, 8 - a);
    assert Pow2(8) == 256;
  }

  lemma PairBelow(t: nat, q: nat, a: nat, b: nat)
    requires t < a && q < b
    ensures Times(t, b) + q + 1 <= a * b
  {
    MulMono(t + 1, a, b);
    assert (t + 1) * b == t * b + b;
  }

  lemma MulSwap(f: nat, c: nat, b: nat)
    requires b * c == 256
    ensures f * c * b == f * 256
  {
    assert f * c * b == f * (c * b);
  }

  lemma DivShift(pos: nat, b: nat, c: nat, prev: nat)
    requires b * c == 256 && c > 0
    ensures (pos * 256 + prev) / c == pos * b + prev / c
  {
    var q := pos * b + prev / c;
    assert pos * 256 == (pos * b) * c by { assert pos * (b * c) == (pos * b) * c; }
    assert q * c == (pos * b) * c + prev / c * c;
    DivUnique(pos * 256 + prev, q, c);
  }

  lemma ModPair(pos: nat, q: nat, a: nat, b: nat)
    requires a > 0 && q < b
    ensures a * b > 0 && (pos * b + q) % (a * b) == Times(pos % a, b) + q
  {
    PairBelow(pos % a, q, a, b);
    var d := pos / a;
    assert pos * b == (d * a + pos % a) * b == d * a * b + pos % a * b;
    assert d * a * b == d * (a * b);
    DivUnique(pos * b + q, d, a * b);
  }
}
