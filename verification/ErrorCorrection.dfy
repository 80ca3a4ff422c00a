/**
 What the error-correction bytes are for: two different codewords with n of them differ in more
 than n bytes, so up to n / 2 wrong bytes leave only one codeword within reach.
 */
module ErrorCorrection {
  import opened GaloisField
  import opened PolynomialAlgebra
  import opened GeneratorPolynomial

  function Pow(x: bv8, i: nat): bv8 {
    if i == 0 then 1 else Mul(Pow(x, i - 1), x)
  }

  /** The sum of c[j] times the i-th power of xs[j]. */
  function PowerSum(c: seq<bv8>, xs: seq<bv8>, i: nat): bv8
    requires |c| == |xs|
  {
    if c == [] then 0
    else
      var m := |c| - 1;
      Add(PowerSum(c[..m], xs[..m], i), Mul(c[m], Pow(xs[m], i)))
  }

  /** Every c[j] multiplied by xs[j] + x. */
  function Twist(c: seq<bv8>, xs: seq<bv8>, x: bv8): (r: seq<bv8>)
    requires |c| == |xs|
    ensures |r| == |c|
  {
    seq(|c|, j requires 0 <= j < |c| => Mul(c[j], Add(xs[j], x)))
  }

  lemma MulSwap(a: bv8, b: bv8, c: bv8, d: bv8)
    ensures Mul(Mul(a, b), Mul(c, d)) == Mul(Mul(a, c), Mul(b, d))
  {
    hide Mul;
    MulAssoc(a, b, Mul(c, d));
    MulAssoc(b, c, d);
    MulComm(b, c);
    MulAssoc(c, b, d);
    MulAssoc(a, c, Mul(b, d));
  }

  lemma MulOneRight(a: bv8)
    ensures Mul(a, 1) == a
  {
  }

  /** One summand: c(y + x)y^i is c y^(i+1) plus x c y^i. */
  lemma {:induction false} TwistTerm(c: bv8, y: bv8, x: bv8, i: nat, next: nat)
    requires next == i + 1
    ensures Mul(Mul(c, Add(y, x)), Pow(y, i)) == Add(Mul(c, Pow(y, next)), Mul(x, Mul(c, Pow(y, i))))
  {
    hide Mul, Add;
    var p := Pow(y, i);
    MulAddRight(c, y, x);
    MulAddLeft(Mul(c, y), Mul(c, x), p);
    MulAssoc(c, y, p);
    MulComm(y, p);
    MulComm(c, x);
    MulAssoc(x, c, p);
  }

  lemma {:induction false} TwistSum(c: seq<bv8>, xs: seq<bv8>, x: bv8, i: nat, next: nat)
    requires |c| == |xs| && next == i + 1
    ensures PowerSum(Twist(c, xs, x), xs, i) == Add(PowerSum(c, xs, next), Mul(x, PowerSum(c, xs, i)))
  {
    hide Mul, Add, Pow;
    AddLaws();
    MulZero(x);
    if c != [] {
      var m := |c| - 1;
      TwistSum(c[..m], xs[..m], x, i, next);
      TwistTerm(c[m], xs[m], x, i, next);
      assert Twist(c, xs, x)[..m] == Twist(c[..m], xs[..m], x);
      var s, t, u, v := PowerSum(c[..m], xs[..m], next), PowerSum(c[..m], xs[..m], i), Mul(c[m], Pow(xs[m], next)),
          Mul(c[m], Pow(xs[m], i));
      AddSwap(s, Mul(x, t), u, Mul(x, v));
      MulAddRight(x, t, v);
    }
  }

  ghost predicate Different(xs: seq<bv8>) {
    forall j, k :: 0 <= j < k < |xs| ==> xs[j] != xs[k]
  }

  ghost predicate NonZero(c: seq<bv8>) {
    forall j :: 0 <= j < |c| ==> c[j] != 0
  }

  /** The Vandermonde argument: w nonzero coefficients at different points cannot make the first w power sums vanish. */
  lemma {:induction false} Vandermonde(c: seq<bv8>, xs: seq<bv8>) returns (i: nat)
    requires |c| == |xs| >= 1 && NonZero(c) && Different(xs)
    ensures i < |c| && PowerSum(c, xs, i) != 0
    decreases |c|
  {
    hide Mul, Add;
    var m := |c| - 1;
    AddLaws();
    if m == 0 {
      i := 0;
      MulOneRight(c[0]);
      assert PowerSum(c[..0], xs[..0], 0) == 0;
    } else {
      var x := xs[m];
      var t := Twist(c, xs, x);
      forall j | 0 <= j < m ensures t[..m][j] != 0 {
        AddCancel(xs[j], x);
        MulNonZero(c[j], Add(xs[j], x));
      }
      var k := Vandermonde(t[..m], xs[..m]);
      TwistSum(c, xs, x, k, k + 1);
      MulZero(c[m]);
      MulZero(Pow(x, k));
      MulZero(x);
      i := if PowerSum(c, xs, k) != 0 then k else k + 1;
    }
  }

  // ----- The support of a polynomial -----

  /** The nonzero coefficients. */
  function Coeffs(p: seq<bv8>): (c: seq<bv8>)
    ensures NonZero(c)
  {
    if p == [] then [] else Coeffs(p[..|p| - 1]) + if p[|p| - 1] != 0 then [p[|p| - 1]] else []
  }

  function Raised(d: seq<nat>): (r: seq<nat>)
    ensures |r| == |d|
  {
    seq(|d|, j requires 0 <= j < |d| => d[j] + 1)
  }

  /** Their degrees; the last entry of a polynomial is its constant term. */
  function Degrees(p: seq<bv8>): (d: seq<nat>)
    ensures |d| == |Coeffs(p)|
    ensures forall j :: 0 <= j < |d| ==> d[j] < |p|
    ensures forall j, k :: 0 <= j < k < |d| ==> d[j] > d[k]
  {
    if p == [] then [] else Raised(Degrees(p[..|p| - 1])) + if p[|p| - 1] != 0 then [0] else []
  }

  function Points(d: seq<nat>): (xs: seq<bv8>)
    ensures |xs| == |d|
  {
    seq(|d|, j requires 0 <= j < |d| => Exp(d[j]))
  }

  /** How many coefficients are not zero. */
  function Weight(p: seq<bv8>): nat {
    |Coeffs(p)|
  }

  lemma ExpStep(n: nat, next: nat)
    requires next == n + 1
    ensures Exp(next) == Mul(Exp(n), Exp(1))
  {
  }

  /** Powers of the next point. */
  lemma {:induction false} PowOfNext(d: nat, next: nat, i: nat)
    requires next == d + 1
    ensures Pow(Exp(next), i) == Mul(Pow(Exp(d), i), Exp(i))
  {
    hide Mul, Exp;
    if i == 0 {
      ExpStart();
      MulOneLeft(1);
    } else {
      PowOfNext(d, next, i - 1);
      ExpStep(d, next);
      ExpStep(i - 1, i);
      MulSwap(Pow(Exp(d), i - 1), Exp(i - 1), Exp(d), Exp(1));
    }
  }

  lemma ExpStart()
    ensures Exp(0) == 1
  {
  }

  lemma {:induction false} RaisedSum(c: seq<bv8>, d: seq<nat>, i: nat)
    requires |c| == |d|
    ensures PowerSum(c, Points(Raised(d)), i) == Mul(PowerSum(c, Points(d), i), Exp(i))
  {
    hide Mul, Add, Exp, Pow;
    MulZero(Exp(i));
    if c != [] {
      var m := |c| - 1;
      RaisedSum(c[..m], d[..m], i);
      assert Points(Raised(d))[..m] == Points(Raised(d[..m])) && Points(d)[..m] == Points(d[..m]);
      PowOfNext(d[m], d[m] + 1, i);
      MulAssoc(c[m], Pow(Exp(d[m]), i), Exp(i));
      MulAddLeft(PowerSum(c[..m], Points(d[..m]), i), Mul(c[m], Pow(Exp(d[m]), i)), Exp(i));
    }
  }

  lemma {:induction false} PowerSumPush(c: seq<bv8>, xs: seq<bv8>, a: bv8, x: bv8, i: nat)
    requires |c| == |xs|
    ensures PowerSum(c + [a], xs + [x], i) == Add(PowerSum(c, xs, i), Mul(a, Pow(x, i)))
  {
    assert (c + [a])[..|c|] == c && (xs + [x])[..|xs|] == xs;
  }

  lemma {:induction false} PowOfOne(i: nat)
    ensures Pow(1, i) == 1
  {
    if i > 0 {
      PowOfOne(i - 1);
      MulOneLeft(1);
    }
  }

  /** The value at x^i is the power sum of the nonzero coefficients. */
  lemma {:induction false} EvalIsPowerSum(p: seq<bv8>, i: nat)
    ensures Eval(p, Exp(i)) == PowerSum(Coeffs(p), Points(Degrees(p)), i)
  {
    hide Mul, Add, Exp, Pow, PowerSum, Points, Raised;
    AddLaws();
    if p == [] {
      EmptySum(i);
    } else {
      var front, a := p[..|p| - 1], p[|p| - 1];
      EvalIsPowerSum(front, i);
      RaisedSum(Coeffs(front), Degrees(front), i);
      if a != 0 {
        PointsPush(Raised(Degrees(front)));
        PowerSumPush(Coeffs(front), Points(Raised(Degrees(front))), a, 1, i);
        PowOfOne(i);
        MulOneRight(a);
      } else {
        assert Coeffs(p) == Coeffs(front) && Degrees(p) == Raised(Degrees(front));
      }
    }
  }

  lemma EmptySum(i: nat)
    ensures PowerSum([], Points([]), i) == 0
  {
  }

  lemma PointsPush(d: seq<nat>)
    ensures Points(d + [0]) == Points(d) + [1]
  {
    ExpStart();
  }

  lemma DifferentPoints(d: seq<nat>)
    requires forall j :: 0 <= j < |d| ==> d[j] < 255
    requires forall j, k :: 0 <= j < k < |d| ==> d[j] > d[k]
    ensures Different(Points(d))
  {
    hide Exp;
    forall j, k | 0 <= j < k < |d| ensures Points(d)[j] != Points(d)[k] {
      if Points(d)[j] == Points(d)[k] {
        ExpInjective(d[j], d[k]);
      }
    }
  }

  /** A multiple of the degree-n generator with at most 255 coefficients is zero or has more than n nonzero ones. */
  lemma MinimumWeight(p: seq<bv8>, n: nat)
    requires |p| <= 255 && IsMultiple(p, Generator(n))
    ensures Weight(p) == 0 || Weight(p) > n
  {
    hide Generator, IsMultiple, Eval, Exp, PowerSum, Coeffs, Points;
    if 0 < Weight(p) <= n {
      DifferentPoints(Degrees(p));
      var i := Vandermonde(Coeffs(p), Points(Degrees(p)));
      EvalIsPowerSum(p, i);
      GeneratorRoot(n, i);
      MultipleVanishes(p, Generator(n), Exp(i));
    }
  }

  // ----- Distance -----

  /** The number of positions below n in which two words differ. */
  function DifferencesBelow<T(==)>(a: seq<T>, b: seq<T>, n: nat): nat
    requires n <= |a| == |b|
  {
    if n == 0 then 0 else DifferencesBelow(a, b, n - 1) + if a[n - 1] != b[n - 1] then 1 else 0
  }

  function Differences<T(==)>(a: seq<T>, b: seq<T>): nat
    requires |a| == |b|
  {
    DifferencesBelow(a, b, |a|)
  }

  lemma {:induction false} DifferencesAreWeight(a: seq<bv8>, b: seq<bv8>, n: nat)
    requires n <= |a| == |b|
    ensures DifferencesBelow(a, b, n) == Weight(Sum(a, b)[..n])
  {
    hide Add;
    if n > 0 {
      DifferencesAreWeight(a, b, n - 1);
      assert Sum(a, b)[..n][..n - 1] == Sum(a, b)[..n - 1];
      AddCancel(a[n - 1], b[n - 1]);
    }
  }

  lemma {:induction false} NoDifferences<T>(a: seq<T>, b: seq<T>, n: nat)
    requires n <= |a| == |b| && DifferencesBelow(a, b, n) == 0
    ensures a[..n] == b[..n]
  {
    if n > 0 {
      NoDifferences(a, b, n - 1);
      assert a[..n] == a[..n - 1] + [a[n - 1]] && b[..n] == b[..n - 1] + [b[n - 1]];
    }
  }

  lemma {:induction false} Triangle<T>(a: seq<T>, r: seq<T>, b: seq<T>, n: nat)
    requires n <= |a| == |r| == |b|
    ensures DifferencesBelow(a, b, n) <= DifferencesBelow(a, r, n) + DifferencesBelow(b, r, n)
  {
    if n > 0 {
      Triangle(a, r, b, n - 1);
    }
  }

  /** Two different codewords with n error-correction bytes differ in more than n bytes. */
  lemma MinimumDistance(a: seq<bv8>, b: seq<bv8>, n: nat)
    requires |a| == |b| <= 255 && a != b
    requires IsMultiple(a, Generator(n)) && IsMultiple(b, Generator(n))
    ensures Differences(a, b) > n
  {
    hide Generator, IsMultiple, DifferencesBelow, Coeffs, Sum;
    GeneratorLength(n);
    MultipleSum(a, b, Generator(n));
    MinimumWeight(Sum(a, b), n);
    DifferencesAreWeight(a, b, |a|);
    assert Sum(a, b)[..|a|] == Sum(a, b) && a[..|a|] == a && b[..|a|] == b;
    if Differences(a, b) == 0 {
      NoDifferences(a, b, |a|);
    }
  }

  lemma GeneratorLength(n: nat)
    ensures |Generator(n)| >= 1
  {
  }

  /** A received word within n / 2 bytes of two codewords is within n / 2 bytes of one: they are the same. */
  lemma UniqueDecoding(a: seq<bv8>, b: seq<bv8>, received: seq<bv8>, n: nat)
    requires |a| == |b| == |received| <= 255
    requires IsMultiple(a, Generator(n)) && IsMultiple(b, Generator(n))
    requires 2 * Differences(a, received) <= n && 2 * Differences(b, received) <= n
    ensures a == b
  {
    hide Generator, IsMultiple, DifferencesBelow;
    Triangle(a, received, b, |a|);
    if a != b {
      MinimumDistance(a, b, n);
    }
  }
}
