/**
 The Reed-Solomon generator (z + x^0)(z + x^1) .. (z + x^(n-1)). Its coefficients satisfy the
 recurrence of the Gaussian binomials, from which none of them is zero for n up to 254, while
 for n = 255 all but the outermost are.
 */
module GeneratorPolynomial {
  import opened GaloisField
  import opened PolynomialAlgebra

  /** The product of the first n factors. */
  function Generator(n: nat): (g: seq<bv8>)
    ensures |g| == n + 1
  {
    if n == 0 then [1] else Product(Generator(n - 1), [1, Exp(n - 1)])
  }

  /** Coefficient k of the generator, 0 outside 0..n. */
  function C(n: nat, k: int): bv8 {
    if k < 0 || k > n then 0
    else if n == 0 then 1
    else Add(C(n - 1, k), Mul(C(n - 1, k - 1), Exp(n - 1)))
  }

  lemma CStep(n: nat, k: int)
    ensures C(n + 1, k) == Add(C(n, k), Mul(C(n, k - 1), Exp(n)))
  {
    if k < 0 || k > n + 1 {
      hide Mul, Exp;
      MulZero(Exp(n));
    }
  }

  lemma {:induction false} GeneratorCoefficient(n: nat, k: nat)
    requires k <= n
    ensures Generator(n)[k] == C(n, k)
  {
    hide Add, Mul, Exp;
    AddLaws();
    if n > 0 {
      var p := Generator(n - 1);
      ConvLinear(p, 1, Exp(n - 1), |p|, k);
      assert Generator(n)[k] == Conv(p, [1, Exp(n - 1)], |p|, k);
      CStep(n - 1, k);
      hide Conv, C, Generator;
      if k < n {
        GeneratorCoefficient(n - 1, k);
        MulComm(p[k], 1);
        MulOneLeft(p[k]);
      } else {
        COutside(n - 1, k);
      }
      if k > 0 {
        GeneratorCoefficient(n - 1, k - 1);
      } else {
        COutside(n - 1, k - 1);
        MulZero(Exp(n - 1));
      }
    }
  }

  lemma COutside(n: nat, k: int)
    requires k < 0 || k > n
    ensures C(n, k) == 0
  {
  }

  lemma {:induction false} CLeading(n: nat)
    ensures C(n, 0) == 1
  {
    if n > 0 {
      CStep(n - 1, 0);
      CLeading(n - 1);
      hide Mul, Exp;
      MulZero(Exp(n - 1));
    }
  }

  /** Neighbouring coefficients: C(n, k) (x^k + 1) = C(n, k-1) (x^n + x^(k-1)). */
  ghost predicate Ratio(n: nat, k: nat)
    requires k >= 1
  {
    Mul(C(n, k), Add(Exp(k), 1)) == Mul(C(n, k - 1), Add(Exp(n), Exp(k - 1)))
  }

  /** The step of the ratio law in plain field elements. */
  lemma {:induction false} RatioAlgebra(a: bv8, b: bv8, d: bv8, q: bv8, u: bv8, v: bv8, w: bv8, x: bv8)
    requires Mul(a, Add(u, 1)) == Mul(b, Add(q, v))
    requires Mul(b, Add(v, 1)) == Mul(d, Add(q, w))
    requires u == Mul(x, v) && v == Mul(x, w)
    ensures Mul(Add(a, Mul(b, q)), Add(u, 1)) == Mul(Add(b, Mul(d, q)), Add(Mul(x, q), v))
  {
    hide Add, Mul;
    var bq := Mul(b, q);
    var common := Add(Mul(b, v), Mul(bq, u));
    assert Mul(Add(a, bq), Add(u, 1)) == common by {
      MulAddLeft(a, bq, Add(u, 1));
      MulAddRight(b, q, v);
      MulAddRight(bq, u, 1);
      MulComm(bq, 1);
      MulOneLeft(bq);
      AddLaws();
      AddSwap(bq, Mul(b, v), bq, Mul(bq, u));
    }
    assert Mul(Add(b, Mul(d, q)), Add(Mul(x, q), v)) == common by {
      var e := Add(Mul(x, q), v);
      MulAddLeft(b, Mul(d, q), e);
      MulAddRight(b, Mul(x, q), v);
      assert Mul(Mul(d, q), e) == Add(Mul(bq, u), Mul(bq, x)) by {
        MulComm(d, q);
        MulAssoc(q, d, e);
        MulAddRight(x, q, w);
        assert e == Mul(x, Add(q, w));
        MulComm(x, Add(q, w));
        MulAssoc(d, Add(q, w), x);
        assert Mul(d, e) == Mul(Mul(b, Add(v, 1)), x);
        MulAssoc(b, Add(v, 1), x);
        MulComm(Add(v, 1), x);
        MulAddRight(x, v, 1);
        MulComm(x, 1);
        MulOneLeft(x);
        assert Mul(d, e) == Mul(b, Add(u, x));
        MulAssoc(q, b, Add(u, x));
        MulComm(q, b);
        MulAddRight(bq, u, x);
      }
      assert Mul(b, Mul(x, q)) == Mul(bq, x) by {
        MulComm(x, q);
        MulAssoc(b, q, x);
      }
      AddLaws();
      AddSwap(Mul(bq, x), Mul(b, v), Mul(bq, x), Mul(bq, u));
    }
  }

  lemma ExpNext(n: nat, m: nat)
    requires m == n + 1
    ensures Exp(m) == Mul(Exp(1), Exp(n))
  {
    hide *;
    MulExp(1, n, m);
  }

  lemma {:induction false} RatioHolds(n: nat, k: nat)
    requires k >= 1
    ensures Ratio(n, k)
  {
    if n == 0 {
      RatioBase(k);
    } else {
      RatioHolds(n - 1, k);
      if k == 1 {
        RatioFirst(n);
      } else {
        RatioHolds(n - 1, k - 1);
        RatioStep(n - 1, n, k - 2, k - 1, k);
      }
    }
  }

  lemma RatioStep(m: nat, n: nat, i: nat, j: nat, k: nat)
    requires n == m + 1 && j == i + 1 && k == j + 1
    requires Ratio(m, k) && Ratio(m, j)
    ensures Ratio(n, k)
  {
    hide Add, Mul, Exp, C;
    ExpNext(m, n);
    ExpNext(j, k);
    ExpNext(i, j);
    CStep(m, k);
    CStep(m, j);
    RatioAlgebra(C(m, k), C(m, j), C(m, i), Exp(m), Exp(k), Exp(j), Exp(i), Exp(1));
  }

  lemma RatioBase(k: nat)
    requires k >= 1
    ensures Ratio(0, k)
  {
    hide Mul, XTime;
    MulZero(Add(Exp(k), 1));
    MulZero(Add(Exp(0), Exp(k - 1)));
    if k == 1 {
      assert Exp(0) == 1 && C(0, 1) == 0 && Add(1, 1) == 0;
      MulZero(C(0, 0));
    } else {
      assert C(0, k) == 0 && C(0, k - 1) == 0;
    }
  }

  /** The second coefficient is (x^n + 1) / (x + 1). */
  lemma RatioFirst(n: nat)
    requires n >= 1
    requires Ratio(n - 1, 1)
    ensures Ratio(n, 1)
  {
    assert Exp(0) == 1;
    hide Add, Mul, Exp;
    AddLaws();
    CLeading(n);
    CLeading(n - 1);
    CStep(n - 1, 1);
    var a, q, x := C(n - 1, 1), Exp(n - 1), Exp(1);
    MulOneLeft(q);
    MulOneLeft(Add(q, 1));
    MulAddLeft(a, q, Add(x, 1));
    ExpNext(n - 1, n);
    MulComm(x, q);
    MulAddRight(q, x, 1);
    MulComm(q, 1);
    MulOneLeft(Add(Exp(n), 1));
    AddSwap(q, 1, Mul(q, x), q);
    AddSwap(q, 1, q, Mul(q, x));
  }

  /** Up to degree 254 no coefficient of the generator is zero. */
  lemma {:induction false} NoZeroCoefficient(n: nat, k: nat)
    requires k <= n <= 254
    ensures C(n, k) != 0
  {
    if k == 0 {
      CLeading(n);
    } else {
      NoZeroCoefficient(n, k - 1);
      RatioHolds(n, k);
      hide Mul, Exp;
      if C(n, k) == 0 {
        MulZero(Add(Exp(k), 1));
        MulNonZero(C(n, k - 1), Add(Exp(n), Exp(k - 1)));
        AddCancel(Exp(n), Exp(k - 1));
        ExpInjective(n, k - 1);
      }
    }
  }

  /** Degree 255 is the first with a zero coefficient: there the generator is z^255 + 1. */
  lemma {:induction false} ZeroCoefficientAt255(n: nat, k: nat)
    requires n == 255 && 1 <= k <= 254
    ensures C(n, k) == 0
  {
    RatioHolds(n, k);
    ExpOrder();
    assert Exp(0) == 1;
    hide Mul, Exp, C;
    AddCancel(Exp(k), 1);
    MulNonZero(C(n, k), Add(Exp(k), 1));
    if k == 1 {
      AddCancel(Exp(n), Exp(0));
      MulZero(C(n, 0));
    } else {
      ZeroCoefficientAt255(n, k - 1);
      MulZero(Add(Exp(n), Exp(k - 1)));
    }
  }

  /** x^i is a root for every i below n. */
  lemma {:induction false} GeneratorRoot(n: nat, i: nat)
    requires i < n
    ensures Eval(Generator(n), Exp(i)) == 0
  {
    hide Add, Mul, Exp;
    var g, x := Generator(n - 1), Exp(i);
    EvalProduct(g, [1, Exp(n - 1)], x);
    EvalLinear(Exp(n - 1), x);
    if i < n - 1 {
      GeneratorRoot(n - 1, i);
      MulZero(Add(x, Exp(n - 1)));
    } else {
      AddCancel(x, x);
      MulZero(Eval(g, x));
    }
  }

  lemma EvalLinear(b: bv8, x: bv8)
    ensures Eval([1, b], x) == Add(x, b)
  {
    hide Add, Mul;
    AddLaws();
    assert [1, b][..1] == [1];
    assert Eval([1], x) == Add(Mul(Eval([], x), x), 1) by {
      assert [1][..0] == [];
    }
    MulZero(x);
    MulOneLeft(x);
  }
}
