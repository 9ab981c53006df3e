/** Numbers as bit sequences, high bit first. */
module Bits {
  import opened Gf2

  function Pow2(n: nat): (p: nat)
    ensures p > 0
  {
    if n == 0 then 1 else 2 * Pow2(n - 1)
  }

  /** The `n` low bits of `v`. */
  function BitsOf(n: nat, v: nat): (p: Poly)
    ensures |p| == n
  {
    if n == 0 then [] else BitsOf(n - 1, v / 2) + [v % 2 == 1]
  }

  function ValueOf(p: Poly): nat
  {
    if p == [] then 0 else 2 * ValueOf(p[..|p| - 1]) + (if p[|p| - 1] then 1 else 0)
  }

  lemma {:induction false} ValueBound(p: Poly)
    ensures ValueOf(p) < Pow2(|p|)
  {
    if p != [] {
      ValueBound(p[..|p| - 1]);
    }
  }

  /** The low bits of the number that a bit sequence stands for are the end of the sequence. */
  lemma {:induction false} BitsOfValue(n: nat, p: Poly)
    requires n <= |p|
    ensures BitsOf(n, ValueOf(p)) == p[|p| - n..]
  {
    if n != 0 {
      var m := |p| - 1;
      BitsOfValue(n - 1, p[..m]);
      var v := ValueOf(p);
      assert v / 2 == ValueOf(p[..m]) && (v % 2 == 1) == p[m];
      assert p[..m][m - (n - 1)..] + [p[m]] == p[|p| - n..];
    }
  }

  /** The number that `n` bits stand for is all of `v` when `v` fits. */
  lemma {:induction false} ValueOfBits(n: nat, v: nat)
    requires v < Pow2(n)
    ensures ValueOf(BitsOf(n, v)) == v
  {
    if n != 0 {
      ValueOfBits(n - 1, v / 2);
      var p := BitsOf(n, v);
      assert p[..n - 1] == BitsOf(n - 1, v / 2);
    }
  }

  lemma {:induction false} FewerBits(n: nat, m: nat, v: nat)
    requires m <= n
    ensures BitsOf(n, v)[n - m..] == BitsOf(m, v)
  {
    if m != 0 {
      FewerBits(n - 1, m - 1, v / 2);
      assert BitsOf(n, v)[n - m..] == BitsOf(n - 1, v / 2)[n - m..] + [v % 2 == 1];
    }
  }

  /** Low bits do not see a multiple of a higher power of two. */
  lemma {:induction false} HighPartInvisible(n: nat, d: nat, v: nat)
    requires v >= Pow2(n + d)
    ensures BitsOf(n, v - Pow2(n + d)) == BitsOf(n, v)
  {
    if n != 0 {
      var w := Pow2(n - 1 + d);
      assert Pow2(n + d) == 2 * w;
      assert (v - 2 * w) / 2 == v / 2 - w && (v - 2 * w) % 2 == v % 2;
      HighPartInvisible(n - 1, d, v / 2);
    }
  }

  /** Low bits are those of the remainder. */
  lemma {:induction false} RemainderBits(n: nat, v: nat)
    ensures BitsOf(n, v % Pow2(n)) == BitsOf(n, v)
  {
    if n != 0 {
      var p := Pow2(n - 1);
      HalvedRemainder(v, p);
      RemainderBits(n - 1, v / 2);
    }
  }

  lemma HalvedRemainder(v: nat, p: nat)
    requires p > 0
    ensures (v % (2 * p)) / 2 == (v / 2) % p && (v % (2 * p)) % 2 == v % 2
  {
    var q, r := v / (2 * p), v % (2 * p);
    var m := p * q;
    assert v == 2 * m + r;
    assert v / 2 == m + r / 2 && r / 2 < p;
    QuotientOf(v / 2, p, q, r / 2);
  }

  /** The last four bits, one by one. */
  lemma LastFour(n: nat, v: nat, b3: bool, b2: bool, b1: bool, b0: bool)
    requires b3 == ((v / 8) % 2 == 1) && b2 == ((v / 4) % 2 == 1) && b1 == ((v / 2) % 2 == 1) && b0 == (v % 2 == 1)
    ensures BitsOf(n + 4, v) == BitsOf(n, v / 16) + [b3, b2, b1, b0]
  {
    assert v / 2 / 2 == v / 4 && v / 4 / 2 == v / 8 && v / 8 / 2 == v / 16;
    assert BitsOf(n + 4, v) == BitsOf(n + 3, v / 2) + [b0];
    assert BitsOf(n + 3, v / 2) == BitsOf(n + 2, v / 4) + [b1];
    assert BitsOf(n + 2, v / 4) == BitsOf(n + 1, v / 8) + [b2];
    assert BitsOf(n + 1, v / 8) == BitsOf(n, v / 16) + [b3];
  }

  lemma {:induction false} TopBit(n: nat, v: nat)
    requires n > 0
    ensures BitsOf(n, v)[0] == ((v / Pow2(n - 1)) % 2 == 1)
  {
    if n == 1 {
      assert v / 1 == v;
    } else {
      TopBit(n - 1, v / 2);
      HalveFirst(v, Pow2(n - 2));
    }
  }

  lemma HalveFirst(v: nat, p: nat)
    requires p > 0
    ensures (v / 2) / p == v / (2 * p)
  {
    var q, r := v / (2 * p), v % (2 * p);
    assert v == 2 * p * q + r;
    assert v / 2 == p * q + r / 2 && r / 2 < p;
    QuotientOf(v / 2, p, q, r / 2);
  }

  lemma QuotientOf(a: nat, p: nat, q: nat, r: nat)
    requires p > 0 && a == p * q + r && r < p
    ensures a / p == q && a % p == r
  {
    var d := a / p;
    assert a == p * d + a % p;
    assert d < q ==> p * (d + 1) <= p * q;
    assert q < d ==> p * (q + 1) <= p * d;
  }

  lemma {:induction false} ValueAppend(p: Poly, q: Poly)
    ensures ValueOf(p + q) == ValueOf(p) * Pow2(|q|) + ValueOf(q)
  {
    if q == [] {
      assert p + q == p;
    } else {
      var n := |q| - 1;
      ValueAppend(p, q[..n]);
      assert (p + q)[..|p + q| - 1] == p + q[..n];
      assert ValueOf(p) * Pow2(|q|) == 2 * (ValueOf(p) * Pow2(n));
    }
  }

  /** Doubling moves every bit up. */
  lemma DoubledBits(n: nat, v: nat, b: bool)
    requires n > 0
    ensures BitsOf(n, 2 * v + if b then 1 else 0) == BitsOf(n, v)[1..] + [b]
  {
    FewerBits(n, n - 1, v);
    var w := 2 * v + if b then 1 else 0;
    assert w / 2 == v && (w % 2 == 1) == b;
  }
}
