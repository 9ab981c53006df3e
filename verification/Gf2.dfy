/** Polynomials over the two-element field, as coefficient sequences with the highest power first. */
module Gf2 {

  type Poly = seq<bool>

  function Zeros(n: nat): Poly
  {
    seq(n, _ => false)
  }

  function Xor(a: Poly, b: Poly): Poly
    requires |a| == |b|
  {
    seq(|a|, i requires 0 <= i < |a| => a[i] != b[i])
  }

  function Scale(b: bool, p: Poly): Poly
  {
    if b then p else Zeros(|p|)
  }

  /** Schoolbook product: (q*x + b) * g == (q*g)*x + b*g. */
  function Mul(q: Poly, g: Poly): (p: Poly)
    requires |g| > 0
    ensures |p| == |q| + |g| - 1
  {
    if q == [] then Zeros(|g| - 1)
    else
      var n := |q| - 1;
      Xor(Mul(q[..n], g) + [false], Zeros(n) + Scale(q[n], g))
  }

  /** `r`, of smaller degree than `g`, is what `p` leaves when some multiple of `g` is taken away. */
  ghost predicate IsRemainder(p: Poly, g: Poly, r: Poly)
  {
    && |g| > 0 && |r| == |g| - 1 && |p| >= |r|
    && exists q: Poly :: IsQuotient(p, g, r, q)
  }

  ghost predicate IsQuotient(p: Poly, g: Poly, r: Poly, q: Poly)
    requires |g| > 0 && |r| == |g| - 1 && |p| >= |r|
  {
    |q| == |p| - |r| && p == Xor(Mul(q, g), Zeros(|q|) + r)
  }

  /** A product whose |q| leading coefficients vanish has a vanishing factor, when g is monic. */
  lemma {:induction false} VanishingHead(q: Poly, g: Poly)
    requires |g| > 0 && g[0]
    requires Mul(q, g)[..|q|] == Zeros(|q|)
    ensures q == Zeros(|q|)
  {
    if q != [] {
      var n := |q| - 1;
      var m, t := Mul(q[..n], g) + [false], Zeros(n) + Scale(q[n], g);
      HeadOfStep(m, t, n);
      assert m[..n] == Mul(q[..n], g)[..n];
      VanishingHead(q[..n], g);
      MulByZeros(n, g);
      assert !m[n];
      LastOfStep(q, g, t, n);
    }
  }

  lemma LastOfStep(q: Poly, g: Poly, t: Poly, n: nat)
    requires |g| > 0 && g[0] && |q| == n + 1 && q[..n] == Zeros(n)
    requires t == Zeros(n) + Scale(q[n], g) && !t[n]
    ensures q == Zeros(n + 1)
  {
    assert q == q[..n] + [q[n]];
  }

  lemma HeadOfStep(m: Poly, t: Poly, n: nat)
    requires |m| == |t| > n && t[..n] == Zeros(n)
    requires Xor(m, t)[..n + 1] == Zeros(n + 1)
    ensures m[..n] == Zeros(n) && m[n] == t[n]
  {
    var x := Xor(m, t);
    forall i | 0 <= i <= n ensures m[i] == t[i] {
      assert x[i] == x[..n + 1][i];
    }
    forall i | 0 <= i < n ensures !m[i] {
      assert t[i] == t[..n][i];
    }
  }

  lemma {:induction false} MulByZeros(n: nat, g: Poly)
    requires |g| > 0
    ensures Mul(Zeros(n), g) == Zeros(n + |g| - 1)
  {
    if n != 0 {
      assert Zeros(n)[..n - 1] == Zeros(n - 1);
      MulByZeros(n - 1, g);
    }
  }

  lemma {:induction false} MulIsLinear(a: Poly, b: Poly, g: Poly)
    requires |a| == |b| && |g| > 0
    ensures Mul(Xor(a, b), g) == Xor(Mul(a, g), Mul(b, g))
  {
    if a != [] {
      var n := |a| - 1;
      MulIsLinear(a[..n], b[..n], g);
      assert Xor(a, b)[..n] == Xor(a[..n], b[..n]);
      StepIsLinear(Mul(a[..n], g), Mul(b[..n], g), a[n], b[n], n, g);
    }
  }

  lemma StepIsLinear(ma: Poly, mb: Poly, a: bool, b: bool, n: nat, g: Poly)
    requires |ma| == |mb| == n + |g| - 1
    ensures Xor(Xor(ma, mb) + [false], Zeros(n) + Scale(a != b, g))
         == Xor(Xor(ma + [false], Zeros(n) + Scale(a, g)), Xor(mb + [false], Zeros(n) + Scale(b, g)))
  {
  }

  /** Division by a monic polynomial leaves one remainder only. */
  lemma RemainderIsUnique(p: Poly, g: Poly, r: Poly, r': Poly)
    requires |g| > 0 && g[0]
    requires IsRemainder(p, g, r) && IsRemainder(p, g, r')
    ensures r == r'
  {
    var q: Poly :| IsQuotient(p, g, r, q);
    var q': Poly :| IsQuotient(p, g, r', q');
    hide Mul;
    QuotientIsUnique(p, g, r, q, r', q');
    TailsAgree(p, Mul(q, g), r, r', |q|);
  }

  lemma TailsAgree(p: Poly, m: Poly, r: Poly, r': Poly, n: nat)
    requires |p| == |m| == n + |r| == n + |r'|
    requires p == Xor(m, Zeros(n) + r) == Xor(m, Zeros(n) + r')
    ensures r == r'
  {
    forall i | 0 <= i < |r| ensures r[i] == r'[i] {
      assert p[n + i] == (m[n + i] != (Zeros(n) + r)[n + i]);
      assert p[n + i] == (m[n + i] != (Zeros(n) + r')[n + i]);
    }
  }

  lemma QuotientIsUnique(p: Poly, g: Poly, r: Poly, q: Poly, r': Poly, q': Poly)
    requires |g| > 0 && g[0] && |r| == |r'| == |g| - 1 && |p| >= |r|
    requires IsQuotient(p, g, r, q) && IsQuotient(p, g, r', q')
    ensures q == q'
  {
    var n := |q|;
    MulIsLinear(q, q', g);
    HeadsAgree(p, Mul(q, g), r, Mul(q', g), r', n);
    VanishingHead(Xor(q, q'), g);
    forall i | 0 <= i < n ensures q[i] == q'[i] {
      assert Xor(q, q')[i] == Zeros(n)[i];
    }
  }

  lemma HeadsAgree(p: Poly, m: Poly, r: Poly, m': Poly, r': Poly, n: nat)
    requires |p| == |m| == |m'| == n + |r| == n + |r'|
    requires p == Xor(m, Zeros(n) + r) == Xor(m', Zeros(n) + r')
    ensures Xor(m, m')[..n] == Zeros(n)
  {
    forall i | 0 <= i < n ensures m[i] == m'[i] {
      assert p[i] == (m[i] != (Zeros(n) + r)[i]);
      assert p[i] == (m'[i] != (Zeros(n) + r')[i]);
    }
  }
}
