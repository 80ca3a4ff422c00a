/**
 The polynomial class of the encoder and the error-correction bytes it computes.

 An array entry the program never assigned is `None`; exclusive or treats it as 0, but it is not
 stripped from the front of a polynomial, and its logarithm is undefined instead of an error.
 */
module ReedSolomon {
  import opened Wrappers
  import opened GaloisField
  import opened GaloisTables
  import opened PolynomialAlgebra
  import opened GeneratorPolynomial

  type Coeff = Option<bv8>

  /** The value a coefficient has under exclusive or. */
  function Val(c: Coeff): bv8 {
    if c.Some? then c.value else 0
  }

  function Vals(p: seq<Coeff>): (r: seq<bv8>)
    ensures |r| == |p|
  {
    seq(|p|, i requires 0 <= i < |p| => Val(p[i]))
  }

  function Defined(p: seq<bv8>): (r: seq<Coeff>)
    ensures |r| == |p|
  {
    seq(|p|, i requires 0 <= i < |p| => Some(p[i]))
  }

  function Undefined(n: nat): (r: seq<Coeff>)
    ensures |r| == n
  {
    seq(n, i => None)
  }

  predicate HasZero(p: seq<Coeff>) {
    exists i :: 0 <= i < |p| && p[i] == Some(0)
  }

  /** Leading zeros removed; an undefined entry stops the removal. */
  function Strip(num: seq<Coeff>): (r: seq<Coeff>)
    ensures |r| <= |num|
    ensures r == [] || r[0] != Some(0)
  {
    if num != [] && num[0] == Some(0) then Strip(num[1..]) else num
  }

  lemma {:induction false} StripPrefix(num: seq<Coeff>)
    ensures num == Defined(Zeros(|num| - |Strip(num)|)) + Strip(num)
  {
    if num != [] && num[0] == Some(0) {
      StripPrefix(num[1..]);
      var r := Strip(num[1..]);
      assert num == [Some(0)] + num[1..];
      assert Defined(Zeros(|num| - |r|)) == [Some(0)] + Defined(Zeros(|num| - 1 - |r|));
    }
  }

  datatype QRPolynomial = QRPolynomial(num: seq<Coeff>)

  /** The constructor: strips leading zeros and appends `shift` unassigned entries. */
  method NewPolynomial(num: seq<Coeff>, shift: nat) returns (r: QRPolynomial)
    ensures r.num == Strip(num) + Undefined(shift)
  {
    var offset := 0;
    assert num[0..] == num;
    while offset < |num| && num[offset] == Some(0)
      invariant offset <= |num|
      invariant Strip(num) == Strip(num[offset..])
    {
      assert num[offset..][1..] == num[offset + 1..];
      offset := offset + 1;
    }
    var a := new Coeff[|num| - offset + shift](i => None);
    for i := 0 to |num| - offset
      invariant forall k :: 0 <= k < i ==> a[k] == num[offset..][k]
      invariant forall k :: i <= k < a.Length ==> a[k] == None
    {
      a[i] := num[i + offset];
    }
    hide Strip;
    assert a[..] == num[offset..] + Undefined(shift);
    r := QRPolynomial(a[..]);
  }

  // ----- Multiplication -----

  /** One factor pair, as gexp(glog a + glog b), has the value of the field product. */
  lemma PairProduct(a: Coeff, b: Coeff)
    requires a != Some(0) && b != Some(0)
    ensures GlogSpec(a).Ok? && GlogSpec(b).Ok?
    ensures Val(GexpSpec(Plus(GlogSpec(a).value, GlogSpec(b).value))) == Mul(Val(a), Val(b))
  {
    hide Mul, Exp;
    if a.Some? && b.Some? {
      LogAddIsMul(a.value, b.value);
    } else {
      MulZero(Val(a));
      MulZero(Val(b));
    }
  }

  /** Whether multiplying p and e throws: a zero coefficient met, or a negative array length. */
  predicate MultiplyThrows(p: seq<Coeff>, e: seq<Coeff>) {
    if p == [] || e == [] then p == e else HasZero(p) || HasZero(e)
  }

  /** Row i of the product loop: XORs c times e into a from position i on. */
  method AddRow(math: QRMath, a: array<Coeff>, i: nat, c: Coeff, e: seq<Coeff>) returns (ok: bool)
    requires math.Valid() && i + |e| <= a.Length
    requires math.expTable as object != a && math.logTable as object != a
    modifies a
    ensures ok <==> |e| == 0 || (c != Some(0) && !HasZero(e))
    ensures ok ==> forall k :: 0 <= k < a.Length ==>
              a[k] == if i <= k < i + |e| then Some(Add(Val(old(a[k])), Mul(Val(c), Val(e[k - i])))) else old(a[k])
  {
    hide Mul, Exp, Add, GlogSpec, GexpSpec;
    for j := 0 to |e|
      invariant math.Valid()
      invariant j > 0 ==> c != Some(0)
      invariant forall k :: 0 <= k < j ==> e[k] != Some(0)
      invariant forall k :: 0 <= k < a.Length ==>
                  a[k] == if i <= k < i + j then Some(Add(Val(old(a[k])), Mul(Val(c), Val(e[k - i])))) else old(a[k])
    {
      GlogThrows(c);
      GlogThrows(e[j]);
      var logC := math.Glog(c);
      if logC.Throws? {
        return false;
      }
      var logE := math.Glog(e[j]);
      if logE.Throws? {
        return false;
      }
      var t := math.Gexp(Plus(logC.value, logE.value));
      PairProduct(c, e[j]);
      a[i + j] := Some(Add(Val(a[i + j]), Val(t)));
    }
    ok := true;
  }

  lemma GlogThrows(c: Coeff)
    ensures GlogSpec(c).Throws? <==> c == Some(0)
  {
  }

  /** What the first i rows of the product loop leave in the array. */
  ghost predicate RowsDone(a: seq<Coeff>, p: seq<Coeff>, e: seq<Coeff>, i: nat)
    requires i <= |p| && |a| == |p| + |e| - 1
  {
    && (forall k :: 0 <= k < |a| ==> Val(a[k]) == Conv(Vals(p), Vals(e), i, k))
    && (i > 0 && e != [] ==> !HasZero(e))
    && (e != [] ==> forall k :: 0 <= k < i ==> p[k] != Some(0))
    && (i > 0 && e != [] ==> forall k :: 0 <= k < i - 1 + |e| ==> a[k].Some?)
  }

  lemma FirstRow(p: seq<Coeff>, e: seq<Coeff>)
    requires |p| + |e| >= 1
    ensures RowsDone(Undefined(|p| + |e| - 1), p, e, 0)
  {
  }

  /** Row i of the product: what AddRow leaves when it does not throw. */
  lemma NextRow(before: seq<Coeff>, after: seq<Coeff>, p: seq<Coeff>, e: seq<Coeff>, i: nat)
    requires i < |p| && |before| == |after| == |p| + |e| - 1
    requires RowsDone(before, p, e, i)
    requires e == [] || (p[i] != Some(0) && !HasZero(e))
    requires forall k :: 0 <= k < |after| ==>
               after[k] == if i <= k < i + |e| then Some(Add(Val(before[k]), Mul(Val(p[i]), Val(e[k - i]))))
                   else before[k]
    ensures RowsDone(after, p, e, i + 1)
  {
    hide Add, Mul, HasZero;
    AddLaws();
    var pv, ev := Vals(p), Vals(e);
    forall k | 0 <= k < |after| ensures Val(after[k]) == Conv(pv, ev, i + 1, k) {
      assert Val(before[k]) == Conv(pv, ev, i, k);
      assert Conv(pv, ev, i + 1, k) == Add(Conv(pv, ev, i, k), Term(pv[i], ev, k - i));
    }
  }

  lemma LastRow(a: seq<Coeff>, p: seq<Coeff>, e: seq<Coeff>)
    requires |a| == |p| + |e| - 1 && RowsDone(a, p, e, |p|)
    ensures p != [] && e != [] ==> a == Defined(Product(Vals(p), Vals(e))) && !HasZero(e) && !HasZero(p)
  {
    hide Conv, Add, Mul;
  }

  method Multiply(math: QRMath, p: QRPolynomial, e: QRPolynomial) returns (r: Result<QRPolynomial>)
    requires math.Valid()
    ensures r.Throws? <==> MultiplyThrows(p.num, e.num)
    ensures r.Ok? && e.num != [] && p.num != [] ==>
              r.value.num == Strip(Defined(Product(Vals(p.num), Vals(e.num))))
  {
    hide Mul, Exp, Add, Strip, Product, RowsDone;
    if |p.num| + |e.num| < 1 {
      return Throws;
    }
    var n := |p.num| + |e.num| - 1;
    var a := new Coeff[n](i => None);
    FirstRow(p.num, e.num);
    assert a[..] == Undefined(n);
    for i := 0 to |p.num|
      invariant math.Valid()
      invariant RowsDone(a[..], p.num, e.num, i)
    {
      ghost var before := a[..];
      var ok := AddRow(math, a, i, p.num[i], e.num);
      if !ok {
        return Throws;
      }
      NextRow(before, a[..], p.num, e.num, i);
    }
    LastRow(a[..], p.num, e.num);
    var rest := NewPolynomial(a[..], 0);
    assert rest.num == Strip(a[..]);
    r := Ok(rest);
  }

  // ----- The generator polynomial -----

  /** The generator has leading coefficient 1; a zero coefficient first appears at degree 255. */
  lemma GeneratorZeros(n: nat)
    requires n <= 255
    ensures Generator(n)[0] == 1
    ensures HasZero(Defined(Generator(n))) <==> n == 255
  {
    hide Generator, C;
    var g := Generator(n);
    GeneratorCoefficient(n, 0);
    CLeading(n);
    if n == 255 {
      GeneratorCoefficient(n, 1);
      ZeroCoefficientAt255(n, 1);
      assert Defined(g)[1] == Some(0);
    } else {
      forall k | 0 <= k <= n ensures Defined(g)[k] != Some(0) {
        GeneratorCoefficient(n, k);
        NoZeroCoefficient(n, k);
      }
    }
  }

  lemma StripClean(b: seq<bv8>)
    requires b != [] && b[0] == 1
    ensures Strip(Defined(b)) == Defined(b)
    ensures Vals(Defined(b)) == b
  {
    assert Defined(b)[0] == Some(1);
  }

  function Factor(i: nat): seq<bv8> {
    [1, Exp(i % 255)]
  }

  /** Multiplying by z + x^i throws exactly at i = 255. */
  lemma GeneratorThrows(i: nat)
    requires i <= 255
    ensures MultiplyThrows(Defined(Generator(i)), Defined(Factor(i))) <==> i == 255
  {
    ExpNonZero(i % 255);
    assert !HasZero(Defined(Factor(i)));
    hide Generator, Factor;
    GeneratorZeros(i);
  }

  /** Multiplying by z + x^i raises the degree of the generator by one. */
  lemma GeneratorStep(i: nat, next: nat)
    requires i < 255 && next == i + 1
    ensures Strip(Defined(Product(Vals(Defined(Generator(i))), Vals(Defined(Factor(i)))))) == Defined(Generator(next))
  {
    assert i % 255 == i && Generator(next) == Product(Generator(i), Factor(i));
    assert Factor(i)[0] == 1;
    hide Generator, Product, Strip, Factor;
    GeneratorZeros(i);
    GeneratorZeros(next);
    StripClean(Generator(i));
    StripClean(Factor(i));
    StripClean(Generator(next));
  }

  lemma FactorBuilt(i: nat)
    ensures GexpSpec(Some(i)).Some?
    ensures Strip([Some(1), GexpSpec(Some(i))]) + Undefined(0) == Defined(Factor(i))
    ensures Strip([Some(1)]) + Undefined(0) == Defined(Generator(0))
  {
  }

  /** Succeeds exactly up to degree 255; at 256 the zero coefficients of degree 255 are met. */
  method GetErrorCorrectPolynomial(math: QRMath, errorCorrectLength: nat) returns (r: Result<QRPolynomial>)
    requires math.Valid()
    ensures r.Ok? <==> errorCorrectLength <= 255
    ensures r.Ok? ==> r.value.num == Defined(Generator(errorCorrectLength))
  {
    hide *;
    FactorBuilt(0);
    var a := NewPolynomial([Some(1)], 0);
    for i := 0 to errorCorrectLength
      invariant i <= 255
      invariant a.num == Defined(Generator(i))
    {
      FactorBuilt(i);
      var root := math.Gexp(Some(i));
      var factor := NewPolynomial([Some(1), root], 0);
      GeneratorThrows(i);
      var product := Multiply(math, a, factor);
      if product.Throws? {
        return Throws;
      }
      GeneratorStep(i, i + 1);
      a := product.value;
    }
    r := Ok(a);
  }

  // ----- Division with remainder -----

  /** The quotient digit log a - log b as a field element; 0 when either logarithm is undefined. */
  ghost function Digit(p: seq<Coeff>, e: seq<Coeff>): bv8
    requires p != [] && e != [] && p[0] != Some(0) && e[0] != Some(0)
  {
    Val(GexpSpec(Minus(GlogSpec(p[0]).value, GlogSpec(e[0]).value)))
  }

  /** One turn of `mod`: digit times e is XORed into the front of p. */
  ghost function Reduced(p: seq<Coeff>, e: seq<Coeff>): (r: seq<Coeff>)
    requires 0 < |e| <= |p| && p[0] != Some(0) && e[0] != Some(0)
    ensures |r| == |p|
  {
    seq(|p|, i requires 0 <= i < |p| =>
      if i < |e| then Some(Add(Val(p[i]), Mul(Digit(p, e), Val(e[i])))) else p[i])
  }

  /** The entry for e[i]: gexp(glog(e[i]) + ratio). */
  lemma DigitTerm(p: seq<Coeff>, e: seq<Coeff>, i: nat)
    requires 0 < |e| <= |p| && p[0] != Some(0) && e[0].Some? && !HasZero(e) && i < |e|
    ensures e[0] != Some(0) && GlogSpec(e[i]).Ok? && GlogSpec(p[0]).Ok? && GlogSpec(e[0]).Ok?
    ensures var ratio := Minus(GlogSpec(p[0]).value, GlogSpec(e[0]).value);
            Val(GexpSpec(Plus(GlogSpec(e[i]).value, ratio))) == Mul(Digit(p, e), Val(e[i]))
  {
    hide Mul, Exp;
    assert e[i] != Some(0) && e[0] != Some(0);
    if p[0].Some? && e[i].Some? {
      var l, d := Log(e[i].value), Log(p[0].value) - Log(e[0].value);
      DigitIsExp(p, e, d);
      SumOfLogs(l, d);
      MulComm(Exp(l), Exp(d % 255));
    } else {
      MulZero(Val(e[i]));
      MulZero(Digit(p, e));
    }
  }

  lemma DigitIsExp(p: seq<Coeff>, e: seq<Coeff>, d: int)
    requires p != [] && e != [] && p[0] != Some(0) && e[0] != Some(0) && p[0].Some? && e[0].Some?
    requires d == Log(p[0].value) - Log(e[0].value)
    ensures Digit(p, e) == Exp(d % 255)
  {
    hide Exp;
  }

  lemma SumOfLogs(l: nat, d: int)
    requires l < 255
    ensures Exp((l + d) % 255) == Mul(Exp(l), Exp(d % 255))
  {
    hide *;
    var m := d % 255;
    var sum := l + m;
    MulExp(l, m, sum);
    ExpPeriod(sum);
    ModOfSum(l, d);
  }

  lemma ModOfSum(l: int, d: int)
    ensures (l + d % 255) % 255 == (l + d) % 255
  {
  }

  /** Each turn clears the leading entry, so the stripped remainder is shorter. */
  lemma ReducedShrinks(p: seq<Coeff>, e: seq<Coeff>)
    requires 0 < |e| <= |p| && p[0] != Some(0) && e[0].Some? && !HasZero(e)
    ensures e[0] != Some(0) && Reduced(p, e)[0] == Some(0)
    ensures |Strip(Reduced(p, e))| < |p|
  {
    assert e[0] != Some(0);
    DigitTimesLead(p, e);
    hide Mul, Exp, Digit;
    AddCancel(Val(p[0]), Mul(Digit(p, e), Val(e[0])));
  }

  lemma DigitTimesLead(p: seq<Coeff>, e: seq<Coeff>)
    requires 0 < |e| <= |p| && p[0] != Some(0) && e[0].Some? && e[0] != Some(0)
    ensures Mul(Digit(p, e), Val(e[0])) == Val(p[0])
  {
    if p[0].Some? {
      var l, d := Log(e[0].value), Log(p[0].value) - Log(e[0].value);
      hide Mul, Exp;
      SumOfLogs(l, d);
      MulComm(Exp(l), Exp(d % 255));
      LogExp(Log(p[0].value));
    } else {
      MulZero(Val(e[0]));
    }
  }

  /** The remainder computed by the recursion of `mod`, for a divisor on which it does not throw. */
  ghost function Remainder(p: seq<Coeff>, e: seq<Coeff>): (r: seq<Coeff>)
    requires 0 < |e| && e[0].Some? && !HasZero(e)
    requires p == [] || p[0] != Some(0)
    decreases |p|
  {
    if |p| < |e| then p
    else
      ReducedShrinks(p, e);
      Remainder(Strip(Reduced(p, e)), e)
  }

  /** mod never throws for a divisor without zero coefficients, and returns the remainder. */
  method Mod(math: QRMath, p: QRPolynomial, e: QRPolynomial) returns (r: Result<QRPolynomial>)
    requires math.Valid()
    requires 0 < |e.num| && e.num[0].Some?
    requires p.num == [] || p.num[0] != Some(0)
    ensures !HasZero(e.num) ==> r.Ok? && r.value.num == Remainder(p.num, e.num)
    ensures HasZero(e.num) ==> r.Throws? == (|p.num| >= |e.num|)
    ensures HasZero(e.num) && r.Ok? ==> r.value == p
    decreases |p.num|
  {
    hide Mul, Exp, Add, Strip, Digit, GlogSpec, GexpSpec;
    if |p.num| - |e.num| < 0 {
      return Ok(p);
    }
    GlogThrows(p.num[0]);
    GlogThrows(e.num[0]);
    var logP := math.Glog(p.num[0]);
    if logP.Throws? {
      return Throws;
    }
    var logE := math.Glog(e.num[0]);
    if logE.Throws? {
      return Throws;
    }
    var ratio := Minus(logP.value, logE.value);
    var num := new Coeff[|p.num|](i => None);
    for i := 0 to |p.num|
      invariant forall k :: 0 <= k < i ==> num[k] == p.num[k]
      invariant math.Valid()
    {
      num[i] := p.num[i];
    }
    for i := 0 to |e.num|
      invariant math.Valid()
      invariant forall k :: 0 <= k < i ==> e.num[k] != Some(0)
      invariant !HasZero(e.num) ==> forall k :: 0 <= k < |p.num| ==>
                  num[k] == if k < i then Reduced(p.num, e.num)[k] else p.num[k]
    {
      GlogThrows(e.num[i]);
      var logI := math.Glog(e.num[i]);
      if logI.Throws? {
        return Throws;
      }
      var t := math.Gexp(Plus(logI.value, ratio));
      if !HasZero(e.num) {
        DigitTerm(p.num, e.num, i);
      }
      num[i] := Some(Add(Val(num[i]), Val(t)));
    }
    assert num[..] == Reduced(p.num, e.num);
    ReducedShrinks(p.num, e.num);
    var rest := NewPolynomial(num[..], 0);
    assert rest.num == Strip(Reduced(p.num, e.num));
    r := Mod(math, rest, e);
  }

  /** r, right-aligned to length n. */
  function AlignedTo(r: seq<Coeff>, n: nat): (s: seq<bv8>)
    requires |r| <= n
    ensures |s| == n
  {
    Zeros(n - |r|) + Vals(r)
  }

  /** One division step: if the rest of the division is exact, so is this one. */
  lemma DivisionStep(p: seq<Coeff>, e: seq<Coeff>, rest: seq<Coeff>, r: seq<Coeff>)
    requires 0 < |e| <= |p| && p[0] != Some(0) && e[0].Some? && !HasZero(e)
    requires rest == Strip(Reduced(p, e)) && |rest| < |p| && |r| <= |rest|
    requires IsMultiple(Zeros(|p| - 1 - |rest|) + Sum(Vals(rest), AlignedTo(r, |rest|)), Vals(e))
    ensures IsMultiple(Sum(Vals(p), AlignedTo(r, |p|)), Vals(e))
  {
    StripPrefix(Reduced(p, e));
    hide *;
    var inner := Zeros(|p| - 1 - |rest|) + Sum(Vals(rest), AlignedTo(r, |rest|));
    MultipleStep(inner, Vals(e), Digit(p, e));
    DivisionEntries(p, e, rest, r);
  }

  lemma DivisionEntries(p: seq<Coeff>, e: seq<Coeff>, rest: seq<Coeff>, r: seq<Coeff>)
    requires 0 < |e| <= |p| && p[0] != Some(0) && e[0].Some? && e[0] != Some(0) && !HasZero(e)
    requires |rest| < |p| && Reduced(p, e) == Defined(Zeros(|p| - |rest|)) + rest
    requires |r| <= |rest|
    ensures var inner := Zeros(|p| - 1 - |rest|) + Sum(Vals(rest), AlignedTo(r, |rest|));
            Sum(Scale(Digit(p, e), Vals(e)) + Zeros(|inner| + 1 - |e|), [0] + inner) == Sum(Vals(p), AlignedTo(r, |p|))
  {
    hide Mul, Add, Exp, Digit, Reduced, AlignedTo, HasZero;
    var n, m := |p|, |rest|;
    var low := Sum(Vals(rest), AlignedTo(r, m));
    var inner := Zeros(n - 1 - m) + low;
    var top := Scale(Digit(p, e), Vals(e)) + Zeros(|inner| + 1 - |e|);
    var whole := Sum(top, [0] + inner);
    forall k | 0 <= k < n ensures whole[k] == Sum(Vals(p), AlignedTo(r, n))[k] {
      DivisionEntry(p, e, rest, r, k);
      assert whole[k] == Add(top[k], ([0] + inner)[k]);
      assert top[k] == if k < |e| then Mul(Digit(p, e), Val(e[k])) else 0;
      assert ([0] + inner)[k] == if k < n - m then 0 else low[k - (n - m)];
    }
    assert whole == Sum(Vals(p), AlignedTo(r, n));
  }

  lemma AddZeroRight(a: bv8)
    ensures Add(a, 0) == a
  {
  }

  lemma AddTwice(t: bv8, a: bv8, b: bv8)
    ensures Add(t, Add(Add(a, t), b)) == Add(a, b)
  {
  }

  lemma DivisionEntry(p: seq<Coeff>, e: seq<Coeff>, rest: seq<Coeff>, r: seq<Coeff>, k: nat)
    requires 0 < |e| <= |p| && p[0] != Some(0) && e[0].Some? && e[0] != Some(0) && !HasZero(e)
    requires |rest| < |p| && Reduced(p, e) == Defined(Zeros(|p| - |rest|)) + rest
    requires |r| <= |rest| && k < |p|
    ensures var m := |rest|;
            var top := if k < |e| then Mul(Digit(p, e), Val(e[k])) else 0;
            var low := if k < |p| - m then 0 else Sum(Vals(rest), AlignedTo(r, m))[k - (|p| - m)];
            Add(top, low) == Add(Val(p[k]), AlignedTo(r, |p|)[k])
  {
    hide Mul, Exp, Digit;
    var m := |rest|;
    var pk, rk := Val(p[k]), AlignedTo(r, |p|)[k];
    var top := if k < |e| then Mul(Digit(p, e), Val(e[k])) else 0;
    AddZeroRight(pk);
    AddZeroRight(top);
    assert Val(Reduced(p, e)[k]) == Add(pk, top);
    if k < |p| - m {
      assert Add(pk, top) == 0;
      AddCancel(pk, top);
      assert rk == 0 && top == pk;
    } else {
      assert AlignedTo(r, m)[k - (|p| - m)] == rk;
      AddTwice(top, pk, rk);
    }
  }

  /** Division with remainder: p plus its remainder is an exact multiple of e. */
  lemma {:induction false} RemainderDivides(p: seq<Coeff>, e: seq<Coeff>)
    requires 0 < |e| && e[0].Some? && !HasZero(e)
    requires p == [] || p[0] != Some(0)
    requires |p| >= |e| - 1
    ensures |Remainder(p, e)| <= |p| && |Remainder(p, e)| < |e|
    ensures IsMultiple(Sum(Vals(p), AlignedTo(Remainder(p, e), |p|)), Vals(e))
    decreases |p|
  {
    hide Mul, Add, Exp, Digit, Strip, IsMultiple, Product, Reduced;
    var r := Remainder(p, e);
    if |p| < |e| {
      SelfSum(p);
      ZeroIsMultiple(|p|, Vals(e));
    } else {
      ReducedShrinks(p, e);
      var rest := Strip(Reduced(p, e));
      if |rest| >= |e| - 1 {
        RemainderDivides(rest, e);
        MultipleShiftRight(Sum(Vals(rest), AlignedTo(r, |rest|)), Vals(e), |p| - 1 - |rest|);
      } else {
        SelfSum(rest);
        assert Zeros(|p| - 1 - |rest|) + Zeros(|rest|) == Zeros(|p| - 1);
        ZeroIsMultiple(|p| - 1, Vals(e));
      }
      DivisionStep(p, e, rest, r);
    }
  }

  lemma SelfSum(p: seq<Coeff>)
    ensures Sum(Vals(p), AlignedTo(p, |p|)) == Zeros(|p|)
  {
  }

  // ----- One block of the message -----

  /** The error-correction bytes of a data block, as `createBytes` lays them out. */
  ghost function ErrorBytes(data: seq<bv8>, n: nat): (r: seq<Coeff>)
    requires n <= 254
    ensures |r| == n
  {
    var g := Defined(Generator(n));
    GeneratorZeros(n);
    var m := Remainder(RawPolynomial(data, n), g);
    seq(n, i requires 0 <= i < n => var k := i + |m| - n; if 0 <= k < |m| then m[k] else Some(0))
  }

  ghost function RawPolynomial(data: seq<bv8>, n: nat): (p: seq<Coeff>)
    ensures p == [] || p[0] != Some(0)
  {
    Strip(Defined(data)) + Undefined(n)
  }

  /** The data followed by its error-correction bytes is a multiple of the generator. */
  lemma CodewordDivisible(data: seq<bv8>, n: nat)
    requires n <= 254
    ensures IsMultiple(data + Vals(ErrorBytes(data, n)), Generator(n))
  {
    var g, p := Defined(Generator(n)), RawPolynomial(data, n);
    StripPrefix(Defined(data));
    hide Generator, Strip, Remainder, IsMultiple, ErrorBytes, Vals, AlignedTo, Sum;
    GeneratorZeros(n);
    StripClean(Generator(n));
    assert |p| >= n && |g| == n + 1;
    RemainderDivides(p, g);
    var m := Remainder(p, g);
    ErrorBytesPadded(data, n, m);
    var lead := |data| - |Strip(Defined(data))|;
    MultipleShiftRight(Sum(Vals(p), AlignedTo(m, |p|)), Generator(n), lead);
    CodewordLayout(data, Strip(Defined(data)), n, m);
  }

  lemma ErrorBytesPadded(data: seq<bv8>, n: nat, m: seq<Coeff>)
    requires n <= 254
    requires Defined(Generator(n))[0].Some? && !HasZero(Defined(Generator(n)))
    requires m == Remainder(RawPolynomial(data, n), Defined(Generator(n))) && |m| <= n
    ensures Vals(ErrorBytes(data, n)) == AlignedTo(m, n)
  {
    hide Generator, Strip, Remainder;
  }

  lemma CodewordLayout(data: seq<bv8>, s: seq<Coeff>, n: nat, m: seq<Coeff>)
    requires |s| <= |data| && Defined(data) == Defined(Zeros(|data| - |s|)) + s
    requires |m| <= n
    ensures var p := s + Undefined(n);
            data + AlignedTo(m, n) == Zeros(|data| - |s|) + Sum(Vals(p), AlignedTo(m, |p|))
  {
    hide Add;
    AddLaws();
    var lead := |data| - |s|;
    var p := s + Undefined(n);
    var word, right := data + AlignedTo(m, n), Zeros(lead) + Sum(Vals(p), AlignedTo(m, |p|));
    forall k | 0 <= k < |word| ensures word[k] == right[k] {
      if k < |data| {
        assert data[k] == Val(Defined(data)[k]);
      }
    }
  }

  /** No other n bytes complete the data to a multiple of the generator. */
  lemma ErrorBytesUnique(data: seq<bv8>, n: nat, ec: seq<bv8>)
    requires n <= 254 && |ec| == n
    requires IsMultiple(data + ec, Generator(n))
    ensures ec == Vals(ErrorBytes(data, n))
  {
    hide Add, Mul, Generator, IsMultiple, ErrorBytes;
    GeneratorZeros(n);
    CodewordDivisible(data, n);
    var other := Vals(ErrorBytes(data, n));
    MultipleSum(data + ec, data + other, Generator(n));
    AddLaws();
    assert Sum(data + ec, data + other) == Zeros(|data|) + Sum(ec, other);
    SmallMultiple(|data|, Sum(ec, other), Generator(n));
    forall k | 0 <= k < n ensures ec[k] == other[k] {
      assert Sum(ec, other)[k] == Zeros(n)[k];
      AddCancel(ec[k], other[k]);
    }
  }

  /** Every syndrome of the codeword is zero: it vanishes at x^0 .. x^(n-1). */
  lemma CodewordSyndromes(data: seq<bv8>, n: nat, i: nat)
    requires i < n <= 254
    ensures Eval(data + Vals(ErrorBytes(data, n)), Exp(i)) == 0
  {
    hide *;
    CodewordDivisible(data, n);
    GeneratorRoot(n, i);
    MultipleVanishes(data + Vals(ErrorBytes(data, n)), Generator(n), Exp(i));
  }

  lemma BlockFacts(data: seq<bv8>, n: nat)
    ensures |Defined(Generator(n))| == n + 1 && Defined(Generator(n))[0].Some?
    ensures n <= 254 ==> !HasZero(Defined(Generator(n)))
    ensures n == 255 ==> HasZero(Defined(Generator(n)))
    ensures RawPolynomial(data, n) == Strip(Defined(data)) + Undefined(n)
  {
    hide Generator, Strip;
    if n <= 255 {
      GeneratorZeros(n);
    }
  }

  lemma ErrorBytesAre(data: seq<bv8>, n: nat, m: seq<Coeff>, ec: seq<Coeff>)
    requires n <= 254
    requires Defined(Generator(n))[0].Some? && !HasZero(Defined(Generator(n)))
    requires m == Remainder(RawPolynomial(data, n), Defined(Generator(n)))
    requires |ec| == n && forall i :: 0 <= i < n ==> ec[i] == var k := i + |m| - n; if k >= 0 then m[k] else Some(0)
    ensures ec == ErrorBytes(data, n)
  {
    hide Generator, Strip, Remainder;
  }

  predicate AllZero(data: seq<bv8>) {
    forall i :: 0 <= i < |data| ==> data[i] == 0
  }

  /** At 255 the division is skipped, and nothing thrown, exactly when stripping leaves no data. */
  lemma StripAllZero(data: seq<bv8>)
    ensures Strip(Defined(data)) == [] <==> AllZero(data)
  {
    StripPrefix(Defined(data));
    var s := Strip(Defined(data));
    if s == [] {
      forall i | 0 <= i < |data| ensures data[i] == 0 {
        assert Some(data[i]) == Defined(data)[i] == Defined(Zeros(|data|))[i];
      }
    } else {
      var k := |data| - |s|;
      assert Defined(data)[k] == s[0];
    }
  }

  /** The part of `createBytes` that serves one block. */
  method EncodeBlock(math: QRMath, data: seq<bv8>, ecCount: nat) returns (r: Result<seq<Coeff>>)
    requires math.Valid()
    ensures r.Ok? <==> ecCount <= 254 || (ecCount == 255 && AllZero(data))
    ensures ecCount <= 254 ==> r.value == ErrorBytes(data, ecCount)
    ensures r.Ok? && ecCount == 255 ==> r.value == Undefined(255)
  {
    hide *;
    BlockFacts(data, ecCount);
    StripAllZero(data);
    var rsPoly := GetErrorCorrectPolynomial(math, ecCount);
    if rsPoly.Throws? {
      return Throws;
    }
    var rawPoly := NewPolynomial(Defined(data), |rsPoly.value.num| - 1);
    var modPoly := Mod(math, rawPoly, rsPoly.value);
    if modPoly.Throws? {
      return Throws;
    }
    var ec := RightAligned(modPoly.value.num, |rsPoly.value.num| - 1);
    if ecCount <= 254 {
      ErrorBytesAre(data, ecCount, modPoly.value.num, ec);
    } else {
      assert [] + Undefined(255) == Undefined(255);
      assert ec == modPoly.value.num;
    }
    r := Ok(ec);
  }

  /** The loop that reads the last n entries of m, with 0 where m is shorter. */
  method RightAligned(m: seq<Coeff>, n: nat) returns (r: seq<Coeff>)
    ensures |r| == n
    ensures forall i :: 0 <= i < n ==> r[i] == var k := i + |m| - n; if k >= 0 then m[k] else Some(0)
  {
    var ec := new Coeff[n](i => None);
    for i := 0 to n
      invariant forall j :: 0 <= j < i ==> ec[j] == var k := j + |m| - n; if k >= 0 then m[k] else Some(0)
    {
      var modIndex := i + |m| - n;
      ec[i] := if modIndex >= 0 then m[modIndex] else Some(0);
    }
    r := ec[..];
  }
}
