/**
 Polynomials over GF(256) as sequences of coefficients, leading coefficient first: the product
 as a convolution, evaluation by Horner's rule, and what it is to be a multiple of a polynomial.
 */
module PolynomialAlgebra {
  import opened GaloisField

  function Zeros(n: nat): (r: seq<bv8>)
    ensures |r| == n
  {
    seq(n, k => 0)
  }

  function Sum(a: seq<bv8>, b: seq<bv8>): (r: seq<bv8>)
    requires |a| == |b|
    ensures |r| == |a|
  {
    seq(|a|, k requires 0 <= k < |a| => Add(a[k], b[k]))
  }

  function Scale(c: bv8, g: seq<bv8>): (r: seq<bv8>)
    ensures |r| == |g|
  {
    seq(|g|, k requires 0 <= k < |g| => Mul(c, g[k]))
  }

  /** c times coefficient j of g, where g has no coefficients outside its range. */
  function Term(c: bv8, g: seq<bv8>, j: int): bv8 {
    if 0 <= j < |g| then Mul(c, g[j]) else 0
  }

  /** Coefficient k of the product of the first i coefficients of p with g. */
  function Conv(p: seq<bv8>, g: seq<bv8>, i: nat, k: int): bv8
    requires i <= |p|
  {
    if i == 0 then 0 else Add(Conv(p, g, i - 1, k), Term(p[i - 1], g, k - (i - 1)))
  }

  function Product(p: seq<bv8>, g: seq<bv8>): (r: seq<bv8>)
    requires |g| >= 1
    ensures |r| == |p| + |g| - 1
  {
    seq(|p| + |g| - 1, k => Conv(p, g, |p|, k))
  }

  /** s is q times g for some q of the matching length. */
  ghost predicate IsMultiple(s: seq<bv8>, g: seq<bv8>)
    requires |g| >= 1
  {
    exists q: seq<bv8> :: |q| + |g| == |s| + 1 && s == Product(q, g)
  }

  /** The value at x. */
  function Eval(s: seq<bv8>, x: bv8): bv8 {
    if s == [] then 0 else Add(Mul(Eval(s[..|s| - 1], x), x), s[|s| - 1])
  }

  // ----- Convolution -----

  lemma {:induction false} ConvPrefix(p: seq<bv8>, q: seq<bv8>, g: seq<bv8>, i: nat, k: int)
    requires i <= |p| && i <= |q| && p[..i] == q[..i]
    ensures Conv(p, g, i, k) == Conv(q, g, i, k)
  {
    hide Add, Mul, Term;
    if i > 0 {
      assert p[..i - 1] == p[..i][..i - 1] == q[..i - 1];
      assert p[i - 1] == p[..i][i - 1] == q[i - 1];
      ConvPrefix(p, q, g, i - 1, k);
    }
  }

  /** Splitting off the leading coefficient of the first factor. */
  lemma {:induction false} ConvFront(c: bv8, q: seq<bv8>, g: seq<bv8>, i: nat, k: int)
    requires i <= |q|
    ensures Conv([c] + q, g, i + 1, k) == Add(Term(c, g, k), Conv(q, g, i, k - 1))
  {
    hide Add, Mul, Term;
    AddLaws();
    var p := [c] + q;
    if i == 0 {
      assert Conv(p, g, 0, k) == 0;
      assert Conv(p, g, 1, k) == Add(0, Term(p[0], g, k - 0));
    } else {
      ConvFront(c, q, g, i - 1, k);
      assert p[i] == q[i - 1];
      assert Conv(p, g, i + 1, k) == Add(Conv(p, g, i, k), Term(p[i], g, k - i));
      assert Conv(q, g, i, k - 1) == Add(Conv(q, g, i - 1, k - 1), Term(q[i - 1], g, k - 1 - (i - 1)));
      AddAssoc(Term(c, g, k), Conv(q, g, i - 1, k - 1), Term(q[i - 1], g, k - i));
    }
  }

  lemma {:induction false} ConvZeros(n: nat, g: seq<bv8>, i: nat, k: int)
    requires i <= n
    ensures Conv(Zeros(n), g, i, k) == 0
  {
    hide Add, Mul;
    AddLaws();
    if i > 0 {
      ConvZeros(n, g, i - 1, k);
      if 0 <= k - (i - 1) < |g| {
        MulZero(g[k - (i - 1)]);
      }
    }
  }

  /** Multiplying by a linear factor. */
  lemma {:induction false} ConvLinear(p: seq<bv8>, a: bv8, b: bv8, i: nat, k: int)
    requires i <= |p|
    ensures Conv(p, [a, b], i, k)
            == Add(if 0 <= k < i then Mul(p[k], a) else 0, if 1 <= k <= i then Mul(p[k - 1], b) else 0)
  {
    hide Add, Mul;
    AddLaws();
    if i > 0 {
      ConvLinear(p, a, b, i - 1, k);
    }
  }

  // ----- Multiples -----

  lemma ZeroIsMultiple(n: nat, g: seq<bv8>)
    requires |g| >= 1 && n >= |g| - 1
    ensures IsMultiple(Zeros(n), g)
  {
    var q := Zeros(n + 1 - |g|);
    forall k | 0 <= k < n ensures Product(q, g)[k] == 0 {
      ConvZeros(|q|, g, |q|, k);
    }
    assert Product(q, g) == Zeros(n);
  }

  /** Long division run backwards: a multiple with one more digit c in front of its quotient. */
  lemma MultipleStep(s: seq<bv8>, g: seq<bv8>, c: bv8)
    requires |g| >= 1 && |s| >= |g| - 1 && IsMultiple(s, g)
    ensures IsMultiple(Sum(Scale(c, g) + Zeros(|s| + 1 - |g|), [0] + s), g)
  {
    hide Add, Mul, Conv;
    AddLaws();
    var q: seq<bv8> :| |q| + |g| == |s| + 1 && s == Product(q, g);
    var r := Sum(Scale(c, g) + Zeros(|s| + 1 - |g|), [0] + s);
    var d := [c] + q;
    forall k | 0 <= k < |r| ensures r[k] == Product(d, g)[k] {
      ConvFront(c, q, g, |q|, k);
      if k == 0 {
        ConvNegative(q, g, |q|, -1);
      } else {
        assert s[k - 1] == Conv(q, g, |q|, k - 1);
      }
    }
    assert r == Product(d, g);
  }

  lemma {:induction false} ConvNegative(p: seq<bv8>, g: seq<bv8>, i: nat, k: int)
    requires i <= |p| && k < 0
    ensures Conv(p, g, i, k) == 0
  {
    hide Add, Mul;
    AddLaws();
    if i > 0 {
      ConvNegative(p, g, i - 1, k);
    }
  }

  lemma {:induction false} MultipleShiftRight(s: seq<bv8>, g: seq<bv8>, n: nat)
    requires |g| >= 1 && |s| >= |g| - 1 && IsMultiple(s, g)
    ensures IsMultiple(Zeros(n) + s, g)
  {
    if n == 0 {
      assert Zeros(0) + s == s;
    } else {
      MultipleShiftRight(s, g, n - 1);
      var t := Zeros(n - 1) + s;
      MultipleStep(t, g, 0);
      hide Add, Mul;
      AddLaws();
      forall k | 0 <= k < |g| ensures Scale(0, g)[k] == 0 {
        MulZero(g[k]);
      }
      assert Zeros(n) + s == Sum(Scale(0, g) + Zeros(|t| + 1 - |g|), [0] + t);
    }
  }

  lemma {:induction false} ConvSum(p: seq<bv8>, q: seq<bv8>, g: seq<bv8>, i: nat, k: int)
    requires |p| == |q| && i <= |p|
    ensures Conv(Sum(p, q), g, i, k) == Add(Conv(p, g, i, k), Conv(q, g, i, k))
  {
    hide Add, Mul;
    AddLaws();
    if i > 0 {
      ConvSum(p, q, g, i - 1, k);
      var j := k - (i - 1);
      if 0 <= j < |g| {
        MulAddLeft(p[i - 1], q[i - 1], g[j]);
      }
      AddSwap(Conv(p, g, i - 1, k), Conv(q, g, i - 1, k), Term(p[i - 1], g, j), Term(q[i - 1], g, j));
    }
  }

  lemma MultipleSum(s: seq<bv8>, t: seq<bv8>, g: seq<bv8>)
    requires |g| >= 1 && |s| == |t| && IsMultiple(s, g) && IsMultiple(t, g)
    ensures IsMultiple(Sum(s, t), g)
  {
    var p: seq<bv8> :| |p| + |g| == |s| + 1 && s == Product(p, g);
    var q: seq<bv8> :| |q| + |g| == |t| + 1 && t == Product(q, g);
    var r := Sum(p, q);
    forall k | 0 <= k < |s| ensures Sum(s, t)[k] == Product(r, g)[k] {
      ConvSum(p, q, g, |p|, k);
    }
    assert Sum(s, t) == Product(r, g);
  }

  /** A quotient whose product with a monic polynomial starts with m zeros starts with m zeros. */
  lemma {:induction false} LeadingZeros(q: seq<bv8>, g: seq<bv8>, m: nat)
    requires |g| >= 1 && g[0] == 1 && m <= |q|
    requires forall k :: 0 <= k < m ==> Product(q, g)[k] == 0
    ensures forall k :: 0 <= k < m ==> q[k] == 0
  {
    hide Add, Mul;
    AddLaws();
    if m > 0 {
      LeadingZeros(q, g, m - 1);
      assert Product(q, g)[m - 1] == Conv(q, g, |q|, m - 1);
      ConvTail(q, g, |q|, m - 1);
      assert q[..m - 1] == Zeros(m - 1);
      ConvPrefix(q, Zeros(m - 1), g, m - 1, m - 1);
      ConvZeros(m - 1, g, m - 1, m - 1);
      assert Conv(q, g, m, m - 1) == Add(Conv(q, g, m - 1, m - 1), Term(q[m - 1], g, 0));
      MulComm(q[m - 1], 1);
      MulOneLeft(q[m - 1]);
    }
  }

  /** Coefficients of the first factor beyond position k do not reach coefficient k. */
  lemma {:induction false} ConvTail(p: seq<bv8>, g: seq<bv8>, i: nat, k: nat)
    requires k < i <= |p|
    ensures Conv(p, g, i, k) == Conv(p, g, k + 1, k)
  {
    hide Add, Mul;
    AddLaws();
    if i > k + 1 {
      ConvTail(p, g, i - 1, k);
    }
  }

  /** Below the degree of a monic g, only 0 is a multiple of g. */
  lemma SmallMultiple(m: nat, d: seq<bv8>, g: seq<bv8>)
    requires |g| >= 1 && g[0] == 1 && |d| == |g| - 1
    requires IsMultiple(Zeros(m) + d, g)
    ensures d == Zeros(|d|)
  {
    var q: seq<bv8> :| |q| + |g| == m + |d| + 1 && Zeros(m) + d == Product(q, g);
    assert forall k :: 0 <= k < m ==> Product(q, g)[k] == (Zeros(m) + d)[k];
    LeadingZeros(q, g, m);
    assert q == Zeros(m);
    forall k | 0 <= k < |d| ensures d[k] == 0 {
      assert d[k] == Product(q, g)[m + k];
      ConvZeros(m, g, m, m + k);
    }
  }

  // ----- Evaluation -----

  lemma {:induction false} EvalSum(a: seq<bv8>, b: seq<bv8>, x: bv8)
    requires |a| == |b|
    ensures Eval(Sum(a, b), x) == Add(Eval(a, x), Eval(b, x))
    decreases |a|
  {
    hide Add, Mul;
    AddLaws();
    if |a| > 0 {
      var n := |a| - 1;
      EvalSum(a[..n], b[..n], x);
      assert Sum(a, b)[..n] == Sum(a[..n], b[..n]);
      MulAddLeft(Eval(a[..n], x), Eval(b[..n], x), x);
      AddSwap(Mul(Eval(a[..n], x), x), Mul(Eval(b[..n], x), x), a[n], b[n]);
    }
  }

  lemma EvalShift(s: seq<bv8>, x: bv8)
    ensures Eval(s + [0], x) == Mul(Eval(s, x), x)
  {
  }

  lemma {:induction false} EvalZeros(n: nat, s: seq<bv8>, x: bv8)
    ensures Eval(Zeros(n) + s, x) == Eval(s, x)
    ensures Eval(Zeros(n), x) == 0
    decreases |s|, n
  {
    hide Add, Mul;
    AddLaws();
    if s == [] {
      assert Zeros(n) + s == Zeros(n);
      if n > 0 {
        EvalZeros(n - 1, s, x);
        assert Zeros(n)[..n - 1] == Zeros(n - 1);
        MulZero(x);
      }
    } else {
      var m := |s| - 1;
      EvalZeros(n, s[..m], x);
      assert (Zeros(n) + s)[..n + m] == Zeros(n) + s[..m];
    }
  }

  lemma {:induction false} EvalScale(c: bv8, g: seq<bv8>, x: bv8)
    ensures Eval(Scale(c, g), x) == Mul(c, Eval(g, x))
    decreases |g|
  {
    hide Add, Mul;
    if g == [] {
      MulZero(c);
    } else {
      var n := |g| - 1;
      EvalScale(c, g[..n], x);
      assert Scale(c, g)[..n] == Scale(c, g[..n]);
      MulAssoc(c, Eval(g[..n], x), x);
      MulAddRight(c, Mul(Eval(g[..n], x), x), g[n]);
    }
  }

  /** Evaluation is multiplicative. */
  lemma {:induction false} EvalProduct(q: seq<bv8>, g: seq<bv8>, x: bv8)
    requires |g| >= 1
    ensures Eval(Product(q, g), x) == Mul(Eval(q, x), Eval(g, x))
    decreases |q|
  {
    hide Add, Mul;
    AddLaws();
    if q == [] {
      assert Product(q, g) == Zeros(|g| - 1);
      EvalZeros(|g| - 1, [], x);
      MulZero(Eval(g, x));
    } else {
      var n := |q| - 1;
      var front, c := q[..n], q[n];
      EvalProduct(front, g, x);
      ProductLast(q, g);
      EvalSum(Product(front, g) + [0], Zeros(n) + Scale(c, g), x);
      EvalShift(Product(front, g), x);
      EvalZeros(n, Scale(c, g), x);
      EvalScale(c, g, x);
      var f, e := Eval(front, x), Eval(g, x);
      MulAssoc(f, e, x);
      MulComm(e, x);
      MulAssoc(f, x, e);
      MulAddLeft(Mul(f, x), c, e);
    }
  }

  /** Splitting off the last coefficient of the first factor. */
  lemma ProductLast(q: seq<bv8>, g: seq<bv8>)
    requires |g| >= 1 && |q| >= 1
    ensures var n := |q| - 1;
            Product(q, g) == Sum(Product(q[..n], g) + [0], Zeros(n) + Scale(q[n], g))
  {
    hide Add, Mul;
    AddLaws();
    var n := |q| - 1;
    var r := Sum(Product(q[..n], g) + [0], Zeros(n) + Scale(q[n], g));
    forall k | 0 <= k < |r| ensures r[k] == Product(q, g)[k] {
      ConvPrefix(q, q[..n], g, n, k);
      if k == |r| - 1 {
        ConvBeyond(q[..n], g, n, k);
      }
    }
  }

  lemma {:induction false} ConvBeyond(p: seq<bv8>, g: seq<bv8>, i: nat, k: int)
    requires i <= |p| && k >= i + |g| - 1
    ensures Conv(p, g, i, k) == 0
  {
    hide Add, Mul;
    AddLaws();
    if i > 0 {
      ConvBeyond(p, g, i - 1, k);
    }
  }

  lemma MultipleVanishes(s: seq<bv8>, g: seq<bv8>, x: bv8)
    requires |g| >= 1 && IsMultiple(s, g) && Eval(g, x) == 0
    ensures Eval(s, x) == 0
  {
    var q: seq<bv8> :| |q| + |g| == |s| + 1 && s == Product(q, g);
    EvalProduct(q, g, x);
    MulZero(Eval(q, x));
  }
}
