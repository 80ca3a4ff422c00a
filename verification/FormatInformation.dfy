/**
 The BCH code of the format information, on the 32-bit words of the program: bits are the
 coefficients of a polynomial over GF(2).
 */
module FormatInformation {

  const G15: bv32 := 0x537       // x^10 + x^8 + x^5 + x^4 + x^2 + x + 1
  const G15_MASK: bv32 := 0x5412

  function Xor(a: bv32, b: bv32): bv32 {
    a ^ b
  }

  function Half(a: bv32): (r: bv32)
    ensures a != 0 ==> r < a
  {
    a >> 1
  }

  /** Number of binary digits. */
  function Digits(a: bv32): nat
    decreases a
  {
    if a == 0 then 0 else 1 + Digits(Half(a))
  }

  /** The generator times x^s. */
  function Shifted(s: nat): bv32
    requires s <= 21
  {
    G15 << s
  }

  /** A sum of shifted generators, the largest shift first; no shift loses a bit of the word. */
  ghost function SumOfShifts(q: seq<nat>): bv32
    requires forall i :: 0 <= i < |q| ==> q[i] <= 21
  {
    if q == [] then 0 else Xor(Shifted(q[0]), SumOfShifts(q[1..]))
  }

  /** v is the generator times a polynomial: the sum of x^s over the shifts in q. */
  ghost predicate IsMultiple(v: bv32) {
    exists q: seq<nat> :: Descending(q) && v == SumOfShifts(q)
  }

  ghost predicate Descending(q: seq<nat>) {
    && (forall i :: 0 <= i < |q| ==> q[i] <= 21)
    && (forall i, j :: 0 <= i < j < |q| ==> q[i] > q[j])
  }

  lemma XorAssoc(a: bv32, b: bv32, c: bv32)
    ensures Xor(Xor(a, b), c) == Xor(a, Xor(b, c))
  {
  }

  lemma XorLaws(a: bv32, b: bv32, c: bv32)
    ensures Xor(a, 0) == a && Xor(0, a) == a && Xor(a, a) == 0
    ensures Xor(a, b) == Xor(b, a)
    ensures Xor(Xor(a, b), c) == Xor(a, Xor(b, c))
    ensures Xor(a, b) == 0 <==> a == b
  {
    XorAssoc(a, b, c);
  }

  lemma HalfXor(a: bv32, b: bv32)
    ensures Half(Xor(a, b)) == Xor(Half(a), Half(b))
  {
  }

  lemma HalfIsZero(a: bv32)
    requires a != 0 && Half(a) == 0
    ensures a == 1
  {
  }

  /** Two words of equal length cancel their leading digits. */
  lemma {:induction false} XorShortens(a: bv32, b: bv32)
    requires Digits(a) == Digits(b) > 0
    ensures Digits(Xor(a, b)) < Digits(a)
    decreases a
  {
    hide Xor, Half;
    XorLaws(a, b, 0);
    HalfXor(a, b);
    if Half(a) == 0 {
      assert Half(b) == 0;
      HalfIsZero(a);
      HalfIsZero(b);
    } else {
      XorShortens(Half(a), Half(b));
    }
  }

  lemma {:induction false} XorKeepsLength(a: bv32, b: bv32)
    requires Digits(a) > Digits(b)
    ensures Digits(Xor(a, b)) == Digits(a)
    decreases a
  {
    hide Xor, Half;
    XorLaws(a, b, 0);
    HalfXor(a, b);
    if b != 0 {
      XorKeepsLength(Half(a), Half(b));
    }
  }

  lemma ShiftOnce(s: nat)
    requires s < 21
    ensures Shifted(s) != 0 && Half(Shifted(s + 1)) == Shifted(s) && Shifted(s + 1) != 0
  {
    match s {
      case 0 => case 1 => case 2 => case 3 => case 4 => case 5 => case 6 =>
      case 7 => case 8 => case 9 => case 10 => case 11 => case 12 => case 13 =>
      case 14 => case 15 => case 16 => case 17 => case 18 => case 19 =>
      case _ => assert s == 20;
    }
  }

  lemma GeneratorDigits()
    ensures Digits(Shifted(0)) == 11
  {
  }

  lemma {:induction false} ShiftedDigits(s: nat)
    requires s <= 21
    ensures Digits(Shifted(s)) == 11 + s
  {
    if s == 0 {
      GeneratorDigits();
    } else {
      ShiftOnce(s - 1);
      hide Half, Shifted;
      ShiftedDigits(s - 1);
    }
  }

  /** Eight halvings at once. */
  function Half8(a: bv32): bv32 {
    Half(Half(Half(Half(Half(Half(Half(Half(a))))))))
  }

  lemma DigitsOfHalf8(a: bv32)
    ensures Digits(a) <= 8 + Digits(Half8(a))
    ensures Half8(a) != 0 ==> Digits(a) == 8 + Digits(Half8(a))
  {
    var b := Half(Half(Half(Half(a))));
    DigitsOfHalf4(a);
    DigitsOfHalf4(b);
    hide Half;
    assert Half8(a) == Half(Half(Half(Half(b))));
  }

  lemma DigitsOfHalf4(a: bv32)
    ensures var b := Half(Half(Half(Half(a))));
            Digits(a) <= 4 + Digits(b) && (b != 0 ==> Digits(a) == 4 + Digits(b))
  {
    var a1 := Half(a);
    var a2 := Half(a1);
    var a3 := Half(a2);
    HalfOfZero();
    hide Half;
    assert Digits(a) <= 1 + Digits(a1) && (a1 != 0 ==> Digits(a) == 1 + Digits(a1));
    assert Digits(a1) <= 1 + Digits(a2) && (a2 != 0 ==> Digits(a1) == 1 + Digits(a2));
    assert Digits(a2) <= 1 + Digits(a3) && (a3 != 0 ==> Digits(a2) == 1 + Digits(a3));
    assert Digits(a3) <= 1 + Digits(Half(a3)) && (Half(a3) != 0 ==> Digits(a3) == 1 + Digits(Half(a3)));
  }

  lemma HalfOfZero()
    ensures Half(0) == 0
  {
  }

  lemma Half8Is(a: bv32)
    ensures Half8(a) == a >> 8
  {
  }

  lemma AtMost32Digits(a: bv32)
    ensures Digits(a) <= 32
  {
    var a1 := Half8(a);
    var a2 := Half8(a1);
    var a3 := Half8(a2);
    assert Half8(a3) == 0 by {
      Half8Is(a);
      Half8Is(a1);
      Half8Is(a2);
      Half8Is(a3);
    }
    DigitsOfHalf8(a);
    DigitsOfHalf8(a1);
    DigitsOfHalf8(a2);
    DigitsOfHalf8(a3);
    hide Half8;
  }

  lemma ElevenDigits(a: bv32)
    requires a >= 0x400
    ensures Digits(a) >= 11
  {
    var b := Half8(a);
    DigitsOfHalf8(a);
    Half8Is(a);
    var c := Half(b);
    assert c >= 2 && Half(c) >= 1;
    assert Digits(b) == 1 + Digits(c) && Digits(c) == 1 + Digits(Half(c)) && Digits(Half(c)) >= 1;
  }

  /** Fewer than eleven digits is less than 2^10. */
  lemma TenDigits(a: bv32)
    requires Digits(a) <= 10
    ensures a < 0x400
  {
    if a >= 0x400 {
      ElevenDigits(a);
    }
  }

  /** The remainder the loop of `getBCHTypeInfo` leaves. */
  function Remainder(d: bv32): (r: bv32)
    ensures Digits(r) <= 10
    decreases Digits(d)
  {
    AtMost32Digits(d);
    if Digits(d) < 11 then d
    else
      ShiftedDigits(Digits(d) - 11);
      XorShortens(d, Shifted(Digits(d) - 11));
      Remainder(Xor(d, Shifted(Digits(d) - 11)))
  }

  /** Dividend plus remainder is a multiple of the generator. */
  lemma {:induction false} RemainderDivides(d: bv32) returns (q: seq<nat>)
    ensures Descending(q) && Xor(d, Remainder(d)) == SumOfShifts(q)
    ensures forall i :: 0 <= i < |q| ==> 11 + q[i] <= Digits(d)
    decreases Digits(d)
  {
    hide Half, Xor, Shifted;
    AtMost32Digits(d);
    var r := Remainder(d);
    if Digits(d) < 11 {
      XorLaws(d, d, d);
      q := [];
    } else {
      var s := Digits(d) - 11;
      var t := Shifted(s);
      ShiftedDigits(s);
      XorShortens(d, t);
      var rest := RemainderDivides(Xor(d, t));
      q := [s] + rest;
      assert q[1..] == rest;
      XorLaws(t, Xor(d, t), r);
      XorLaws(d, t, t);
      XorLaws(t, d, d);
      XorLaws(Xor(t, Xor(d, t)), r, r);
      XorLaws(d, r, r);
      XorLaws(t, t, d);
    }
  }

  /** A multiple other than 0 has more than ten digits, so the remainder is determined. */
  lemma {:induction false} MultipleIsLong(q: seq<nat>)
    requires Descending(q) && q != []
    ensures Digits(SumOfShifts(q)) == 11 + q[0]
  {
    hide Half, Xor, Shifted;
    ShiftedDigits(q[0]);
    XorLaws(Shifted(q[0]), 0, 0);
    if |q| > 1 {
      MultipleIsLong(q[1..]);
      XorKeepsLength(Shifted(q[0]), SumOfShifts(q[1..]));
    }
  }

  /** The multiples are exactly the words the loop reduces to 0. */
  lemma MultipleIffNoRemainder(v: bv32)
    ensures IsMultiple(v) <==> Remainder(v) == 0
  {
    if Remainder(v) == 0 {
      var q := RemainderDivides(v);
      XorLaws(v, 0, 0);
    }
    if IsMultiple(v) {
      var q: seq<nat> :| Descending(q) && v == SumOfShifts(q);
      MultipleReduces(q);
    }
  }

  lemma {:induction false} MultipleReduces(q: seq<nat>)
    requires Descending(q)
    ensures Remainder(SumOfShifts(q)) == 0
  {
    if q != [] {
      var t, rest := Shifted(q[0]), SumOfShifts(q[1..]);
      MultipleIsLong(q);
      MultipleReduces(q[1..]);
      hide Half, Xor, Shifted;
      XorLaws(t, rest, t);
      XorLaws(t, t, rest);
      XorLaws(rest, t, t);
      assert Xor(Xor(t, rest), t) == rest;
    }
  }

  method GetBCHDigit(n: bv32) returns (digit: nat)
    ensures digit == Digits(n)
  {
    hide Half;
    var data := n;
    digit := 0;
    while data != 0
      invariant digit + Digits(data) == Digits(n)
      decreases Digits(data)
    {
      digit := digit + 1;
      data := Half(data);
    }
  }

  /** One turn of the loop. */
  lemma {:induction false} RemainderTurn(d: bv32, s: nat)
    requires Digits(d) == 11 + s
    ensures s <= 21
    ensures Remainder(d) == Remainder(Xor(d, Shifted(s)))
    ensures Digits(Xor(d, Shifted(s))) < Digits(d)
  {
    AtMost32Digits(d);
    hide Half, Xor, Shifted;
    ShiftedDigits(s);
    XorShortens(d, Shifted(s));
  }

  lemma DigitsOfG15()
    ensures Digits(G15) == 11
  {
  }

  /** Ten check bits below the data, masked. */
  function TypeInfo(data: bv32): bv32 {
    Xor(Xor(data << 10, Remainder(data << 10)), G15_MASK)
  }

  method GetBCHTypeInfo(data: bv32) returns (r: bv32)
    ensures r == TypeInfo(data)
  {
    hide *;
    var top := data << 10;
    var d := top;
    var digit: int := GetBCHDigit(d);
    var generatorDigit: int := GetBCHDigit(G15);
    DigitsOfG15();
    while digit - generatorDigit >= 0
      invariant digit == Digits(d) && generatorDigit == 11
      invariant Remainder(d) == Remainder(top)
      decreases digit
    {
      RemainderTurn(d, digit - generatorDigit);
      d := Xor(d, Shifted(digit - generatorDigit));
      digit := GetBCHDigit(d);
    }
    ShortRemainder(d);
    r := Xor((data << 10) | d, G15_MASK);
    TypeInfoIs(data, d);
  }

  lemma ShortRemainder(d: bv32)
    requires Digits(d) <= 10
    ensures Remainder(d) == d && d < 0x400
  {
    TenDigits(d);
  }

  lemma TypeInfoIs(data: bv32, d: bv32)
    requires d == Remainder(data << 10) && d < 0x400
    ensures Xor((data << 10) | d, G15_MASK) == TypeInfo(data)
  {
    OrIsXor(data, d);
  }

  lemma OrIsXor(data: bv32, d: bv32)
    requires d < 0x400
    ensures (data << 10) | d == Xor(data << 10, d)
  {
  }

  /**
   The information before the mask: the data (as far as 32 bits hold them) above a ten-bit
   remainder, divisible by the generator over GF(2).
   */
  lemma TypeInfoIsCodeword(data: bv32)
    ensures var word := Xor(data << 10, Remainder(data << 10));
            && IsMultiple(word)
            && Remainder(data << 10) < 0x400
            && word >> 10 == (data << 10) >> 10
            && Xor(TypeInfo(data), G15_MASK) == word
  {
    var rest := Remainder(data << 10);
    var q := RemainderDivides(data << 10);
    TenDigits(rest);
    UpperBits(data, rest);
    XorLaws(Xor(data << 10, rest), G15_MASK, G15_MASK);
    XorLaws(G15_MASK, Xor(data << 10, rest), rest);
    XorLaws(Xor(data << 10, rest), rest, rest);
  }

  lemma UpperBits(data: bv32, d: bv32)
    requires d < 0x400
    ensures Xor(data << 10, d) >> 10 == (data << 10) >> 10
  {
  }

  // ----- The code is linear -----

  lemma XorShort(a: bv32, b: bv32)
    requires a < 0x400 && b < 0x400
    ensures Xor(a, b) < 0x400
  {
  }

  lemma XorRearrange(a: bv32, b: bv32, t: bv32)
    ensures Xor(Xor(a, b), t) == Xor(Xor(a, t), b)
    ensures Xor(Xor(a, t), Xor(b, t)) == Xor(a, b)
    ensures Xor(a, b) == Xor(b, a)
  {
    hide Xor;
    XorLaws(a, b, t);
    XorLaws(b, t, a);
    XorLaws(a, t, b);
    XorLaws(a, t, t);
    XorLaws(Xor(a, t), t, b);
    XorLaws(t, t, a);
    XorLaws(a, 0, 0);
  }

  /** The longer operand loses its leading digit. */
  lemma LinearTurn(a: bv32, b: bv32)
    requires Digits(a) >= 11 && Digits(a) > Digits(b)
    ensures Digits(a) <= 32
    ensures var t := Shifted(Digits(a) - 11);
            && Digits(Xor(a, t)) < Digits(a) && Remainder(a) == Remainder(Xor(a, t))
            && Remainder(Xor(a, b)) == Remainder(Xor(Xor(a, t), b))
  {
    AtMost32Digits(a);
    var s: nat := Digits(a) - 11;
    hide Half, Xor, Shifted, Remainder;
    XorKeepsLength(a, b);
    RemainderTurn(a, s);
    RemainderTurn(Xor(a, b), s);
    XorRearrange(a, b, Shifted(s));
  }

  /** The remainder of a sum is the sum of the remainders. */
  lemma {:induction false} RemainderLinear(a: bv32, b: bv32)
    ensures Remainder(Xor(a, b)) == Xor(Remainder(a), Remainder(b))
    decreases Digits(a) + Digits(b)
  {
    hide Half, Xor, Shifted, Remainder;
    XorRearrange(a, b, 0);
    if Digits(a) < 11 && Digits(b) < 11 {
      ShortRemainder(a);
      ShortRemainder(b);
      XorShort(a, b);
      ShortDigits(Xor(a, b));
      ShortRemainder(Xor(a, b));
    } else if Digits(a) > Digits(b) {
      LinearTurn(a, b);
      RemainderLinear(Xor(a, Shifted(Digits(a) - 11)), b);
    } else if Digits(b) > Digits(a) {
      LinearTurn(b, a);
      var b' := Xor(b, Shifted(Digits(b) - 11));
      RemainderLinear(a, b');
      XorRearrange(a, b', 0);
      XorRearrange(Remainder(a), Remainder(b), 0);
    } else {
      var s: nat := Digits(a) - 11;
      RemainderTurn(a, s);
      RemainderTurn(b, s);
      RemainderLinear(Xor(a, Shifted(s)), Xor(b, Shifted(s)));
      XorRearrange(a, b, Shifted(s));
    }
  }

  lemma ShortDigits(a: bv32)
    requires a < 0x400
    ensures Digits(a) <= 10
  {
    if Digits(a) > 10 {
      LongIsLarge(a, 10);
    }
  }

  /** More than n digits is at least 2^n, for n up to 10. */
  lemma {:induction false} LongIsLarge(a: bv32, n: nat)
    requires n <= 10 && Digits(a) > n
    ensures a >= (1 as bv32) << n
  {
    if n > 0 {
      LongIsLarge(Half(a), n - 1);
      DoubleBound(a, n);
    }
  }

  lemma DoubleBound(a: bv32, n: nat)
    requires 1 <= n <= 10 && Half(a) >= (1 as bv32) << (n - 1)
    ensures a >= (1 as bv32) << n
  {
    match n {
      case 1 => case 2 => case 3 => case 4 => case 5 => case 6 => case 7 => case 8 => case 9 =>
      case _ => assert n == 10;
    }
  }

  /** One data bit and the check bits it brings. */
  function Part(data: bv32, place: bv32, word: bv32): bv32 {
    if HasPlace(data, place) then word else 0
  }

  predicate HasPlace(data: bv32, place: bv32) {
    data & place != 0
  }

  /** The codeword as the sum of the codewords of its data bits. */
  function SumOfParts(data: bv32): bv32 {
    Xor(Xor(Xor(Xor(Part(data, 0x1, 0x537), Part(data, 0x2, 0xa6e)), Part(data, 0x4, 0x11eb)),
            Part(data, 0x8, 0x23d6)), Part(data, 0x10, 0x429b))
  }

  lemma SingleBits()
    ensures Remainder(0x400) == 0x137 && Remainder(0x800) == 0x26e
    ensures Remainder(0x1000) == 0x1eb && Remainder(0x2000) == 0x3d6 && Remainder(0x4000) == 0x29b
    ensures Remainder(0) == 0
  {
    DigitValues();
    ShiftedValues();
    hide Digits, Shifted, Remainder, Half;
    RemainderTurn(0x400, 0);
    RemainderTurn(0x800, 1);
    RemainderTurn(0x1000, 2);
    RemainderTurn(0x4dc, 0);
    RemainderTurn(0x2000, 3);
    RemainderTurn(0x9b8, 1);
    RemainderTurn(0x4000, 4);
    RemainderTurn(0x1370, 2);
    RemainderTurn(0x7ac, 0);
    ShortRemainder(0x137);
    ShortRemainder(0x26e);
    ShortRemainder(0x1eb);
    ShortRemainder(0x3d6);
    ShortRemainder(0x29b);
    ShortRemainder(0);
  }

  lemma DigitValues()
    ensures Digits(0x400) == 11 && Digits(0x800) == 12 && Digits(0x1000) == 13 && Digits(0x2000) == 14
    ensures Digits(0x4000) == 15 && Digits(0x4dc) == 11 && Digits(0x9b8) == 12 && Digits(0x1370) == 13
    ensures Digits(0x7ac) == 11 && Digits(0x137) == 9 && Digits(0x26e) == 10 && Digits(0x1eb) == 9
    ensures Digits(0x3d6) == 10 && Digits(0x29b) == 10 && Digits(0) == 0
  {
  }

  lemma ShiftedValues()
    ensures Shifted(0) == 0x537 && Shifted(1) == 0xa6e && Shifted(2) == 0x14dc && Shifted(3) == 0x29b8
            && Shifted(4) == 0x5370
  {
  }

  /** Place k of the data, moved above the check bits. */
  lemma DataOfParts(data: bv32)
    requires data < 32
    ensures data << 10 == Xor(Xor(Xor(Xor(Part(data, 0x1, 0x400), Part(data, 0x2, 0x800)), Part(data, 0x4, 0x1000)),
                                  Part(data, 0x8, 0x2000)), Part(data, 0x10, 0x4000))
  {
  }

  lemma PartRemainder(data: bv32, place: bv32, word: bv32)
    requires Remainder(0) == 0
    ensures Remainder(Part(data, place, word)) == Part(data, place, Remainder(word))
  {
    hide Remainder;
  }

  lemma AddParts(data: bv32)
    ensures Xor(Xor(Xor(Xor(Xor(Part(data, 0x1, 0x400), Part(data, 0x2, 0x800)), Part(data, 0x4, 0x1000)),
                        Part(data, 0x8, 0x2000)), Part(data, 0x10, 0x4000)),
                Xor(Xor(Xor(Xor(Part(data, 0x1, 0x137), Part(data, 0x2, 0x26e)), Part(data, 0x4, 0x1eb)),
                        Part(data, 0x8, 0x3d6)), Part(data, 0x10, 0x29b)))
            == SumOfParts(data)
  {
  }

  /** The word before the mask is the sum of the codewords of its data bits. */
  lemma WordIsSumOfParts(data: bv32)
    requires data < 32
    ensures Xor(TypeInfo(data), G15_MASK) == SumOfParts(data)
  {
    TypeInfoIsCodeword(data);
    SingleBits();
    DataOfParts(data);
    AddParts(data);
    hide Xor, Part, Remainder, SumOfParts, IsMultiple, TypeInfo;
    var p0, p1, p2 := Part(data, 0x1, 0x400), Part(data, 0x2, 0x800), Part(data, 0x4, 0x1000);
    var p3, p4 := Part(data, 0x8, 0x2000), Part(data, 0x10, 0x4000);
    RemainderLinear(p0, p1);
    RemainderLinear(Xor(p0, p1), p2);
    RemainderLinear(Xor(Xor(p0, p1), p2), p3);
    RemainderLinear(Xor(Xor(Xor(p0, p1), p2), p3), p4);
    PartRemainder(data, 0x1, 0x400);
    PartRemainder(data, 0x2, 0x800);
    PartRemainder(data, 0x4, 0x1000);
    PartRemainder(data, 0x8, 0x2000);
    PartRemainder(data, 0x10, 0x4000);
  }

  lemma SumsOfParts(a: bv32, b: bv32)
    ensures Xor(SumOfParts(a), SumOfParts(b)) == SumOfParts(Xor(a, b))
  {
    SamePlace(a, b, 0x1, 0x537);
    SamePlace(a, b, 0x2, 0xa6e);
    SamePlace(a, b, 0x4, 0x11eb);
    SamePlace(a, b, 0x8, 0x23d6);
    SamePlace(a, b, 0x10, 0x429b);
    hide Xor, Part;
    var a0, a1, a2, a3, a4 :=
      Part(a, 0x1, 0x537), Part(a, 0x2, 0xa6e), Part(a, 0x4, 0x11eb), Part(a, 0x8, 0x23d6), Part(a, 0x10, 0x429b);
    var b0, b1, b2, b3, b4 :=
      Part(b, 0x1, 0x537), Part(b, 0x2, 0xa6e), Part(b, 0x4, 0x11eb), Part(b, 0x8, 0x23d6), Part(b, 0x10, 0x429b);
    var a01, b01 := Xor(a0, a1), Xor(b0, b1);
    var a02, b02 := Xor(a01, a2), Xor(b01, b2);
    var a03, b03 := Xor(a02, a3), Xor(b02, b3);
    XorLaws(a03, a4, Xor(b03, b4));
    XorLaws(a4, b03, b4);
    XorLaws(b03, a4, b4);
    XorLaws(a03, b03, Xor(a4, b4));
    XorLaws(a02, a3, Xor(b02, b3));
    XorLaws(a3, b02, b3);
    XorLaws(b02, a3, b3);
    XorLaws(a02, b02, Xor(a3, b3));
    XorLaws(a01, a2, Xor(b01, b2));
    XorLaws(a2, b01, b2);
    XorLaws(b01, a2, b2);
    XorLaws(a01, b01, Xor(a2, b2));
    XorLaws(a0, a1, Xor(b0, b1));
    XorLaws(a1, b0, b1);
    XorLaws(b0, a1, b1);
    XorLaws(a0, b0, Xor(a1, b1));
  }

  lemma SamePlace(a: bv32, b: bv32, place: bv32, word: bv32)
    requires place == 0x1 || place == 0x2 || place == 0x4 || place == 0x8 || place == 0x10
    ensures Xor(Part(a, place, word), Part(b, place, word)) == Part(Xor(a, b), place, word)
  {
    PlaceOfXor(a, b, place);
    XorLaws(word, word, word);
    XorLaws(word, 0, 0);
    XorLaws(0, 0, 0);
    hide Xor, HasPlace;
  }

  lemma PlaceOfXor(a: bv32, b: bv32, place: bv32)
    requires place == 0x1 || place == 0x2 || place == 0x4 || place == 0x8 || place == 0x10
    ensures HasPlace(Xor(a, b), place) == (HasPlace(a, place) != HasPlace(b, place))
  {
  }
}
