/**
 The arithmetic of GF(256) under the QR encoder: bytes are polynomials over GF(2) of degree
 below 8, added by exclusive or and multiplied modulo x^8 + x^4 + x^3 + x^2 + 1.

 `Exp(n)` is the n-th power of the generator x. `Mul` is shift-and-add multiplication with
 reduction; it mentions no table. The module proves that x has order exactly 255, that every
 non-zero byte is a power of x, that adding logarithms is `Mul`, and the field laws.
 */
module GaloisField {

  /** Addition of field elements. */
  function Add(a: bv8, b: bv8): bv8 {
    a ^ b
  }

  /** Multiplication by x: the coefficient of x^7 comes back as x^4 + x^3 + x^2 + 1. */
  function XTime(a: bv8): bv8 {
    Add(a << 1, If(Top(a), 0x1d))
  }

  predicate Top(a: bv8) {
    a & 0x80 != 0
  }

  /** The n-th power of x. */
  function Exp(n: nat): bv8 {
    if n == 0 then 1 else XTime(Exp(n - 1))
  }

  predicate Odd(b: bv8) {
    b & 1 == 1
  }

  function Half(b: bv8): (r: bv8)
    ensures b != 0 ==> r < b
  {
    b >> 1
  }

  function If(c: bool, a: bv8): bv8 {
    if c then a else 0
  }

  /** Product of field elements, one bit of `b` at a time. */
  function Mul(a: bv8, b: bv8): bv8
    decreases b
  {
    if b == 0 then 0 else Add(If(Odd(b), a), Mul(XTime(a), Half(b)))
  }

  // ----- Facts about single bytes -----

  lemma AddLaws()
    ensures forall a {:trigger Add(a, 0)} :: Add(a, 0) == a
    ensures forall a {:trigger Add(0, a)} :: Add(0, a) == a
    ensures forall a {:trigger Add(a, a)} :: Add(a, a) == 0
    ensures forall a, b {:trigger Add(a, b)} :: Add(a, b) == Add(b, a)
  {
  }

  lemma AddAssoc(a: bv8, b: bv8, c: bv8)
    ensures Add(Add(a, b), c) == Add(a, Add(b, c))
  {
  }

  lemma AddSwap(a: bv8, b: bv8, c: bv8, d: bv8)
    ensures Add(Add(a, b), Add(c, d)) == Add(Add(a, c), Add(b, d))
  {
    AddAssoc(a, b, Add(c, d));
    AddAssoc(b, c, d);
    AddAssoc(c, b, d);
    AddAssoc(a, c, Add(b, d));
    AddLaws();
    hide Add;
  }

  lemma AddCancel(a: bv8, b: bv8)
    ensures Add(a, b) == 0 <==> a == b
  {
  }

  lemma XTimeAdd(a: bv8, c: bv8)
    ensures XTime(Add(a, c)) == Add(XTime(a), XTime(c))
  {
    ShiftAdd(a, c);
    AddSwap(a << 1, c << 1, If(Top(a), 0x1d), If(Top(c), 0x1d));
    hide Add, Top;
  }

  lemma ShiftAdd(a: bv8, c: bv8)
    ensures Add(a, c) << 1 == Add(a << 1, c << 1)
    ensures If(Top(Add(a, c)), 0x1d) == Add(If(Top(a), 0x1d), If(Top(c), 0x1d))
  {
  }

  lemma XTimeInjective(a: bv8, b: bv8)
    requires XTime(a) == XTime(b)
    ensures a == b
  {
  }

  lemma IfAdd(c: bool, a: bv8, b: bv8)
    ensures If(c, Add(a, b)) == Add(If(c, a), If(c, b))
    ensures If(c, XTime(a)) == XTime(If(c, a))
  {
  }

  lemma HalfAdd(b: bv8, c: bv8, a: bv8)
    ensures Half(Add(b, c)) == Add(Half(b), Half(c))
    ensures If(Odd(Add(b, c)), a) == Add(If(Odd(b), a), If(Odd(c), a))
    ensures b | c != 0 ==> Half(b) | Half(c) < b | c
  {
  }

  /** The defining equation of Mul. */
  lemma MulStep(a: bv8, b: bv8)
    ensures Mul(a, b) == Add(If(Odd(b), a), Mul(XTime(a), Half(b)))
    ensures Mul(a, 0) == 0
  {
  }

  // ----- Mul is bilinear and commutes with XTime -----

  lemma {:induction false} MulAddLeft(a: bv8, c: bv8, b: bv8)
    ensures Mul(Add(a, c), b) == Add(Mul(a, b), Mul(c, b))
    decreases b
  {
    hide Add, XTime, Half, Odd, If, Mul;
    AddLaws();
    MulStep(a, b);
    MulStep(c, b);
    MulStep(Add(a, c), b);
    if b != 0 {
      XTimeAdd(a, c);
      IfAdd(Odd(b), a, c);
      MulAddLeft(XTime(a), XTime(c), Half(b));
      AddSwap(If(Odd(b), a), Mul(XTime(a), Half(b)), If(Odd(b), c), Mul(XTime(c), Half(b)));
    }
  }

  lemma {:induction false} MulAddRight(a: bv8, b: bv8, c: bv8)
    ensures Mul(a, Add(b, c)) == Add(Mul(a, b), Mul(a, c))
    decreases b | c
  {
    assert b | c == 0 ==> b == 0 && c == 0;
    hide Add, XTime, Half, Odd, If, Mul;
    AddLaws();
    MulStep(a, b);
    MulStep(a, c);
    MulStep(a, Add(b, c));
    if b | c != 0 {
      HalfAdd(b, c, a);
      MulAddRight(XTime(a), Half(b), Half(c));
      AddSwap(If(Odd(b), a), Mul(XTime(a), Half(b)), If(Odd(c), a), Mul(XTime(a), Half(c)));
    }
  }

  lemma {:induction false} MulXTimeLeft(a: bv8, b: bv8)
    ensures Mul(XTime(a), b) == XTime(Mul(a, b))
    decreases b
  {
    assert XTime(0) == 0;
    hide Add, XTime, Half, Odd, If, Mul;
    MulStep(a, b);
    MulStep(XTime(a), b);
    if b != 0 {
      MulXTimeLeft(XTime(a), Half(b));
      IfAdd(Odd(b), a, a);
      XTimeAdd(If(Odd(b), a), Mul(XTime(a), Half(b)));
    }
  }

  lemma MulZero(a: bv8)
    ensures Mul(0, a) == 0 && Mul(a, 0) == 0
  {
    MulStep(a, a);
    MulAddLeft(0, 0, a);
  }

  /** Peeling the lowest bit off a shifted byte. */
  lemma PeelBit(b: bv8)
    ensures Add(If(Odd(b), 1), Half(b) << 1) == b
    ensures Add(If(Odd(b), 2), Half(b) << 2) == b << 1
    ensures Add(If(Odd(b), 4), Half(b) << 3) == b << 2
    ensures Add(If(Odd(b), 8), Half(b) << 4) == b << 3
    ensures Add(If(Odd(b), 16), Half(b) << 5) == b << 4
    ensures Add(If(Odd(b), 32), Half(b) << 6) == b << 5
    ensures Add(If(Odd(b), 64), Half(b) << 7) == b << 6
    ensures Add(If(Odd(b), 128), 0) == b << 7
  {
  }

  lemma PowersOfTwo()
    ensures XTime(1) == 2 && XTime(2) == 4 && XTime(4) == 8 && XTime(8) == 16
    ensures XTime(16) == 32 && XTime(32) == 64 && XTime(64) == 128
  {
  }

  lemma MulPeel(p: bv8, b: bv8)
    ensures Mul(p, b) == Add(If(Odd(b), p), Mul(XTime(p), Half(b)))
    ensures Half(Half(Half(Half(Half(Half(Half(Half(b)))))))) == 0
  {
    MulStep(p, b);
  }

  lemma MulOneLeft(b: bv8)
    ensures Mul(1, b) == b
  {
    var b1 := Half(b);
    var b2 := Half(b1);
    var b3 := Half(b2);
    var b4 := Half(b3);
    var b5 := Half(b4);
    var b6 := Half(b5);
    var b7 := Half(b6);
    MulPeel(1, b);
    hide Mul, Add, If, Half, Odd, XTime;
    PowersOfTwo();
    MulZero(XTime(128));
    MulStep(128, b7);
    PeelBit(b7);
    MulStep(64, b6);
    PeelBit(b6);
    MulStep(32, b5);
    PeelBit(b5);
    MulStep(16, b4);
    PeelBit(b4);
    MulStep(8, b3);
    PeelBit(b3);
    MulStep(4, b2);
    PeelBit(b2);
    MulStep(2, b1);
    PeelBit(b1);
    PeelBit(b);
  }

  // ----- The powers of x -----

  /** Exponents add. */
  lemma {:induction false} MulExp(i: nat, j: nat, sum: nat)
    requires sum == i + j
    ensures Mul(Exp(i), Exp(j)) == Exp(sum)
  {
    hide Mul, XTime;
    if i == 0 {
      MulOneLeft(Exp(j));
    } else {
      MulXTimeLeft(Exp(i - 1), Exp(j));
      MulExp(i - 1, j, sum - 1);
    }
  }

  lemma {:induction false} ExpNonZero(n: nat)
    ensures Exp(n) != 0
  {
    if n > 0 {
      ExpNonZero(n - 1);
      assert forall a :: a != 0 ==> XTime(a) != 0;
    }
  }

  function XTime4(v: bv8): bv8 {
    XTime(XTime(XTime(XTime(v))))
  }

  /** None of v, xv, x^2 v, x^3 v is 1. */
  predicate Avoids4(v: bv8) {
    v != 1 && XTime(v) != 1 && XTime(XTime(v)) != 1 && XTime(XTime(XTime(v))) != 1
  }

  /** Sixteen steps from v end in w and pass no 1 on the way. */
  predicate Walk16(v: bv8, w: bv8) {
    && Avoids4(v)
    && Avoids4(XTime4(v))
    && Avoids4(XTime4(XTime4(v)))
    && Avoids4(XTime4(XTime4(XTime4(v))))
    && w == XTime4(XTime4(XTime4(XTime4(v))))
  }

  /** No power of x from the lo-th up to but excluding the hi-th is 1. */
  ghost predicate NoOne(lo: nat, hi: nat) {
    forall d :: lo <= d < hi ==> Exp(d) != 1
  }

  lemma Block4(d: nat, v: bv8)
    requires v == Exp(d)
    ensures XTime4(v) == Exp(d + 4)
    ensures Avoids4(v) ==> NoOne(d, d + 4)
  {
    hide XTime;
    assert Exp(d + 1) == XTime(v);
    assert Exp(d + 2) == XTime(Exp(d + 1));
    assert Exp(d + 3) == XTime(Exp(d + 2));
    assert Exp(d + 4) == XTime(Exp(d + 3));
  }

  /** The walk so far: x^d is v and no power from the first to the d-th excluded is 1. */
  ghost predicate Reached(d: nat, v: bv8) {
    Exp(d) == v && NoOne(1, d)
  }

  lemma Block16(d: nat, e: nat, v: bv8, w: bv8)
    requires 1 <= d && e == d + 16 && Reached(d, v) && Walk16(v, w)
    ensures Reached(e, w)
  {
    hide XTime4, Avoids4;
    Block4(d, v);
    Block4(d + 4, XTime4(v));
    Block4(d + 8, XTime4(XTime4(v)));
    Block4(d + 12, XTime4(XTime4(XTime4(v))));
  }

  lemma {:induction false} Walk1()
    ensures Walk16(0x02, 0x98) && Walk16(0x98, 0x27) && Walk16(0x27, 0x8c)
  {
  }

  lemma Walk2()
    ensures Walk16(0x8c, 0xbe) && Walk16(0xbe, 0xe7) && Walk16(0xe7, 0xaf)
  {
  }

  lemma Walk3()
    ensures Walk16(0xaf, 0x1f) && Walk16(0x1f, 0x17) && Walk16(0x17, 0x4d)
  {
  }

  lemma {:induction false} Walk4()
    ensures Walk16(0x4d, 0xd1) && Walk16(0xd1, 0xdb) && Walk16(0xdb, 0x19)
  {
  }

  lemma Walk5()
    ensures Walk16(0x19, 0xa2) && Walk16(0xa2, 0x24) && Walk16(0x24, 0x58)
  {
  }

  lemma LastBlock()
    requires Reached(241, 0x58)
    ensures Exp(255) == 1 && NoOne(1, 255)
  {
    Block4(241, 0x58);
    Block4(245, XTime4(0x58));
    Block4(249, XTime4(XTime4(0x58)));
    assert Exp(254) == XTime(Exp(253)) && Exp(255) == XTime(Exp(254));
  }

  lemma FirstStep()
    ensures Reached(1, 0x02)
  {
    assert Exp(1) == XTime(Exp(0)) == 0x02;
  }

  /** The generator x has order exactly 255. */
  lemma ExpOrder()
    ensures Exp(255) == 1
    ensures NoOne(1, 255)
  {
    hide *;
    Walk1();
    Walk2();
    Walk3();
    Walk4();
    Walk5();
    FirstStep();
    Block16(1, 17, 0x02, 0x98);
    Block16(17, 33, 0x98, 0x27);
    Block16(33, 49, 0x27, 0x8c);
    Block16(49, 65, 0x8c, 0xbe);
    Block16(65, 81, 0xbe, 0xe7);
    Block16(81, 97, 0xe7, 0xaf);
    Block16(97, 113, 0xaf, 0x1f);
    Block16(113, 129, 0x1f, 0x17);
    Block16(129, 145, 0x17, 0x4d);
    Block16(145, 161, 0x4d, 0xd1);
    Block16(161, 177, 0xd1, 0xdb);
    Block16(177, 193, 0xdb, 0x19);
    Block16(193, 209, 0x19, 0xa2);
    Block16(209, 225, 0xa2, 0x24);
    Block16(225, 241, 0x24, 0x58);
    LastBlock();
  }

  lemma {:induction false} ExpPeriod(n: nat)
    ensures Exp(n) == Exp(n % 255)
  {
    hide Mul, XTime;
    if n >= 255 {
      ExpOrder();
      MulExp(255, n - 255, n);
      MulOneLeft(Exp(n - 255));
      ExpPeriod(n - 255);
    }
  }

  /** Exp takes different values on 0..254. */
  lemma {:induction false} ExpInjective(i: nat, j: nat)
    requires i < 255 && j < 255
    requires Exp(i) == Exp(j)
    ensures i == j
    decreases i + j
  {
    hide XTime;
    if i > 0 && j > 0 {
      XTimeInjective(Exp(i - 1), Exp(j - 1));
      ExpInjective(i - 1, j - 1);
    } else {
      ExpOrder();
      assert Exp(0) == 1;
    }
  }

  // ----- Every non-zero byte is a power of x -----

  /** A set with as many elements as a set around it is that set. */
  lemma FullSubset<T>(a: set<T>, b: set<T>)
    requires a <= b && |a| >= |b|
    ensures a == b
  {
    if x :| x in b && x !in a {
      SubsetSize(a + {x}, b);
    }
  }

  lemma {:induction false} SubsetSize<T>(a: set<T>, b: set<T>)
    requires a <= b
    ensures |a| <= |b|
  {
    if x :| x in a {
      SubsetSize(a - {x}, b - {x});
    }
  }

  /** The powers x^0 .. x^(n-1). */
  ghost function PowersBelow(n: nat): set<bv8> {
    if n == 0 then {} else PowersBelow(n - 1) + {Exp(n - 1)}
  }

  lemma {:induction false} InPowersBelow(b: bv8, n: nat) returns (i: nat)
    requires b in PowersBelow(n)
    ensures i < n && Exp(i) == b
  {
    hide Exp;
    if b == Exp(n - 1) {
      i := n - 1;
    } else {
      i := InPowersBelow(b, n - 1);
    }
  }

  lemma {:induction false} PowersBelowSize(n: nat)
    requires n <= 255
    ensures |PowersBelow(n)| == n
    ensures 0 !in PowersBelow(n)
  {
    hide Exp;
    if n > 0 {
      PowersBelowSize(n - 1);
      ExpNonZero(n - 1);
      if Exp(n - 1) in PowersBelow(n - 1) {
        var i := InPowersBelow(Exp(n - 1), n - 1);
        ExpInjective(i, n - 1);
      }
    }
  }

  /** The bytes 1..n. */
  ghost function OneTo(n: nat): set<bv8>
    requires n <= 255
  {
    if n == 0 then {} else OneTo(n - 1) + {n as bv8}
  }

  lemma {:induction false} OneToSize(n: nat)
    requires n <= 255
    ensures |OneTo(n)| <= n
  {
    if n > 0 {
      OneToSize(n - 1);
    }
  }

  lemma {:induction false} InOneTo(k: nat, n: nat)
    requires 1 <= k <= n <= 255
    ensures (k as bv8) in OneTo(n)
  {
    if k < n {
      InOneTo(k, n - 1);
    }
  }

  lemma ByteInOneTo(b: bv8)
    requires b != 0
    ensures b in OneTo(255)
  {
    assert 1 <= b as int <= 255 && (b as int) as bv8 == b;
    InOneTo(b as int, 255);
  }

  lemma EveryByteIsAPower(b: bv8)
    requires b != 0
    ensures exists n: nat :: n < 255 && Exp(n) == b
  {
    hide Exp, PowersBelow, OneTo;
    PowersBelowSize(255);
    OneToSize(255);
    forall p | p in PowersBelow(255) ensures p in OneTo(255) {
      ByteInOneTo(p);
    }
    FullSubset(PowersBelow(255), OneTo(255));
    ByteInOneTo(b);
    var n := InPowersBelow(b, 255);
  }

  /** The discrete logarithm to base x. */
  ghost function Log(b: bv8): (n: nat)
    requires b != 0
    ensures n < 255 && Exp(n) == b
  {
    EveryByteIsAPower(b);
    var n: nat :| n < 255 && Exp(n) == b;
    n
  }

  lemma LogExp(n: nat)
    ensures Exp(n) != 0 && Log(Exp(n)) == n % 255
  {
    ExpNonZero(n);
    ExpPeriod(n);
    ExpInjective(Log(Exp(n)), n % 255);
  }

  // ----- The field laws -----

  lemma MulComm(a: bv8, b: bv8)
    ensures Mul(a, b) == Mul(b, a)
  {
    hide Mul, Exp;
    if a == 0 || b == 0 {
      MulZero(a);
      MulZero(b);
    } else {
      var sum := Log(a) + Log(b);
      MulExp(Log(a), Log(b), sum);
      MulExp(Log(b), Log(a), sum);
    }
  }

  lemma MulAssoc(a: bv8, b: bv8, c: bv8)
    ensures Mul(Mul(a, b), c) == Mul(a, Mul(b, c))
  {
    hide Mul, Exp;
    if a == 0 || b == 0 || c == 0 {
      MulZero(a);
      MulZero(b);
      MulZero(c);
      MulZero(Mul(a, b));
      MulZero(Mul(b, c));
    } else {
      MulAssocExp(Log(a), Log(b), Log(c));
    }
  }

  lemma {:induction false} MulAssocExp(i: nat, j: nat, k: nat)
    ensures Mul(Mul(Exp(i), Exp(j)), Exp(k)) == Mul(Exp(i), Mul(Exp(j), Exp(k)))
  {
    hide Mul, Exp;
    var ij, jk, sum := i + j, j + k, i + j + k;
    MulExp(i, j, ij);
    MulExp(ij, k, sum);
    MulExp(j, k, jk);
    MulExp(i, jk, sum);
  }

  lemma MulNonZero(a: bv8, b: bv8)
    ensures Mul(a, b) == 0 <==> a == 0 || b == 0
  {
    hide Mul, Exp;
    MulZero(a);
    MulZero(b);
    if a != 0 && b != 0 {
      var sum := Log(a) + Log(b);
      MulExp(Log(a), Log(b), sum);
      ExpNonZero(sum);
    }
  }
}
