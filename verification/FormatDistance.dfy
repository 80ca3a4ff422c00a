/** The distance between the format words of different levels and masks, and the damage they stand. */
module FormatDistance {
  import opened FormatInformation
  import opened FunctionPatterns
  import opened ErrorCorrection

  /** The fifteen bits of a word, lowest first. */
  function FormatBits(w: bv32): (b: seq<bool>)
    ensures |b| == 15
  {
    seq(15, i requires 0 <= i < 15 => Bit(w, i))
  }

  /** The number of ones among the lowest n bits. */
  function Ones(w: bv32, n: nat): nat
    requires n <= 32
  {
    if n == 0 then 0 else Ones(w, n - 1) + if Bit(w, n - 1) then 1 else 0
  }

  lemma BitOfXor(a: bv32, b: bv32, i: nat)
    requires i < 15
    ensures Bit(Xor(a, b), i) == (Bit(a, i) != Bit(b, i))
  {
    match i {
      case 0 => case 1 => case 2 => case 3 => case 4 => case 5 => case 6 => case 7 => case 8 => case 9 =>
      case 10 => case 11 => case 12 => case 13 =>
      case _ => assert i == 14;
    }
  }

  lemma {:induction false} DifferencesAreOnes(a: bv32, b: bv32, n: nat)
    requires n <= 15
    ensures DifferencesBelow(FormatBits(a), FormatBits(b), n) == Ones(Xor(a, b), n)
  {
    hide Bit, Xor;
    if n > 0 {
      DifferencesAreOnes(a, b, n - 1);
      BitOfXor(a, b, n - 1);
    }
  }

  function One(b: bool): nat {
    if b then 1 else 0
  }

  predicate Parity(a: bool, b: bool) {
    a != b
  }

  /** Bit i of a codeword is the parity of the data bits whose codewords have it. */
  predicate WordBit(d0: bool, d1: bool, d2: bool, d3: bool, d4: bool, i: nat)
    requires i < 15
  {
    match i
    case 0 => Parity(Parity(d0, d2), d4)
    case 1 => Parity(Parity(Parity(Parity(d0, d1), d2), d3), d4)
    case 2 => Parity(Parity(d0, d1), d3)
    case 3 => Parity(Parity(d1, d2), d4)
    case 4 => Parity(Parity(d0, d3), d4)
    case 5 => Parity(Parity(d0, d1), d2)
    case 6 => Parity(Parity(d1, d2), d3)
    case 7 => Parity(Parity(d2, d3), d4)
    case 8 => Parity(Parity(d0, d2), d3)
    case 9 => Parity(Parity(d1, d3), d4)
    case 10 => d0
    case 11 => d1
    case 12 => d2
    case 13 => d3
    case _ => d4
  }

  predicate Parities(d0: bool, d1: bool, d2: bool, d3: bool, d4: bool, i: nat)
    requires i < 15
  {
    Parity(Parity(Parity(Parity(d0 && Bit(0x537, i), d1 && Bit(0xa6e, i)), d2 && Bit(0x11eb, i)),
                  d3 && Bit(0x23d6, i)), d4 && Bit(0x429b, i))
  }

  lemma SameParity(d0: bool, d1: bool, d2: bool, d3: bool, d4: bool, i: nat)
    requires i < 15
    ensures Parities(d0, d1, d2, d3, d4, i) == WordBit(d0, d1, d2, d3, d4, i)
  {
    BitsOfPart0();
    BitsOfPart1();
    BitsOfPart2();
    BitsOfPart3();
    BitsOfPart4();
    hide Bit;
    match i {
      case 0 => case 1 => case 2 => case 3 => case 4 => case 5 => case 6 => case 7 => case 8 => case 9 =>
      case 10 => case 11 => case 12 => case 13 =>
      case _ => assert i == 14;
    }
  }

  lemma BitOfPart(data: bv32, place: bv32, word: bv32, i: nat)
    requires i < 15
    ensures Bit(Part(data, place, word), i) == (HasPlace(data, place) && Bit(word, i))
  {
    hide HasPlace;
    assert !Bit(0, i);
  }

  lemma WordBits(data: bv32, i: nat)
    requires i < 15
    ensures Bit(SumOfParts(data), i)
            == WordBit(HasPlace(data, 0x1), HasPlace(data, 0x2), HasPlace(data, 0x4), HasPlace(data, 0x8),
                       HasPlace(data, 0x10), i)
  {
    hide Bit, Xor, Part, HasPlace;
    var p0, p1, p2 := Part(data, 0x1, 0x537), Part(data, 0x2, 0xa6e), Part(data, 0x4, 0x11eb);
    var p3, p4 := Part(data, 0x8, 0x23d6), Part(data, 0x10, 0x429b);
    BitOfXor(Xor(Xor(Xor(p0, p1), p2), p3), p4, i);
    BitOfXor(Xor(Xor(p0, p1), p2), p3, i);
    BitOfXor(Xor(p0, p1), p2, i);
    BitOfXor(p0, p1, i);
    BitOfPart(data, 0x1, 0x537, i);
    BitOfPart(data, 0x2, 0xa6e, i);
    BitOfPart(data, 0x4, 0x11eb, i);
    BitOfPart(data, 0x8, 0x23d6, i);
    BitOfPart(data, 0x10, 0x429b, i);
    SameParity(HasPlace(data, 0x1), HasPlace(data, 0x2), HasPlace(data, 0x4), HasPlace(data, 0x8),
        HasPlace(data, 0x10), i);
    hide WordBit;
  }

  /** The ones of a codeword with the given data bits. */
  function OnesOf(d0: bool, d1: bool, d2: bool, d3: bool, d4: bool, n: nat): nat
    requires n <= 15
  {
    if n == 0 then 0 else OnesOf(d0, d1, d2, d3, d4, n - 1) + One(WordBit(d0, d1, d2, d3, d4, n - 1))
  }

  lemma {:induction false} OnesAre(data: bv32, n: nat)
    requires n <= 15
    ensures Ones(SumOfParts(data), n)
            == OnesOf(HasPlace(data, 0x1), HasPlace(data, 0x2), HasPlace(data, 0x4), HasPlace(data, 0x8),
                HasPlace(data, 0x10), n)
  {
    hide SumOfParts, Bit, HasPlace, WordBit;
    if n > 0 {
      OnesAre(data, n - 1);
      WordBits(data, n - 1);
    }
  }

  lemma SomeBit(data: bv32)
    requires 0 < data < 32
    ensures HasPlace(data, 0x1) || HasPlace(data, 0x2) || HasPlace(data, 0x4) || HasPlace(data, 0x8)
            || HasPlace(data, 0x10)
  {
  }

  lemma BitsOfPart0()
    ensures Bit(0x537, 0) && Bit(0x537, 1) && Bit(0x537, 2) && !Bit(0x537, 3) && Bit(0x537, 4) && Bit(0x537, 5)
            && !Bit(0x537, 6) && !Bit(0x537, 7)
    ensures Bit(0x537, 8) && !Bit(0x537, 9) && Bit(0x537, 10) && !Bit(0x537, 11) && !Bit(0x537, 12)
            && !Bit(0x537, 13) && !Bit(0x537, 14)
  {
  }

  lemma BitsOfPart1()
    ensures !Bit(0xa6e, 0) && Bit(0xa6e, 1) && Bit(0xa6e, 2) && Bit(0xa6e, 3) && !Bit(0xa6e, 4) && Bit(0xa6e, 5)
            && Bit(0xa6e, 6) && !Bit(0xa6e, 7)
    ensures !Bit(0xa6e, 8) && Bit(0xa6e, 9) && !Bit(0xa6e, 10) && Bit(0xa6e, 11) && !Bit(0xa6e, 12)
            && !Bit(0xa6e, 13) && !Bit(0xa6e, 14)
  {
  }

  lemma BitsOfPart2()
    ensures Bit(0x11eb, 0) && Bit(0x11eb, 1) && !Bit(0x11eb, 2) && Bit(0x11eb, 3) && !Bit(0x11eb, 4)
            && Bit(0x11eb, 5) && Bit(0x11eb, 6) && Bit(0x11eb, 7)
    ensures Bit(0x11eb, 8) && !Bit(0x11eb, 9) && !Bit(0x11eb, 10) && !Bit(0x11eb, 11) && Bit(0x11eb, 12)
            && !Bit(0x11eb, 13) && !Bit(0x11eb, 14)
  {
  }

  lemma BitsOfPart3()
    ensures !Bit(0x23d6, 0) && Bit(0x23d6, 1) && Bit(0x23d6, 2) && !Bit(0x23d6, 3) && Bit(0x23d6, 4)
            && !Bit(0x23d6, 5) && Bit(0x23d6, 6) && Bit(0x23d6, 7)
    ensures Bit(0x23d6, 8) && Bit(0x23d6, 9) && !Bit(0x23d6, 10) && !Bit(0x23d6, 11) && !Bit(0x23d6, 12)
            && Bit(0x23d6, 13) && !Bit(0x23d6, 14)
  {
  }

  lemma BitsOfPart4()
    ensures Bit(0x429b, 0) && Bit(0x429b, 1) && !Bit(0x429b, 2) && Bit(0x429b, 3) && Bit(0x429b, 4)
            && !Bit(0x429b, 5) && !Bit(0x429b, 6) && Bit(0x429b, 7)
    ensures !Bit(0x429b, 8) && Bit(0x429b, 9) && !Bit(0x429b, 10) && !Bit(0x429b, 11) && !Bit(0x429b, 12)
            && !Bit(0x429b, 13) && Bit(0x429b, 14)
  {
  }

  lemma {:induction false} FiveMore(d0: bool, d1: bool, d2: bool, d3: bool, d4: bool, n: nat)
    requires n <= 10
    ensures OnesOf(d0, d1, d2, d3, d4, n + 5)
            == OnesOf(d0, d1, d2, d3, d4, n) + One(WordBit(d0, d1, d2, d3, d4, n))
                + One(WordBit(d0, d1, d2, d3, d4, n + 1))
               + One(WordBit(d0, d1, d2, d3, d4, n + 2)) + One(WordBit(d0, d1, d2, d3, d4, n + 3))
               + One(WordBit(d0, d1, d2, d3, d4, n + 4))
  {
    hide WordBit, One;
    assert OnesOf(d0, d1, d2, d3, d4, n + 2)
           == OnesOf(d0, d1, d2, d3, d4, n) + One(WordBit(d0, d1, d2, d3, d4, n))
               + One(WordBit(d0, d1, d2, d3, d4, n + 1));
    assert OnesOf(d0, d1, d2, d3, d4, n + 4)
           == OnesOf(d0, d1, d2, d3, d4, n + 2) + One(WordBit(d0, d1, d2, d3, d4, n + 2))
              + One(WordBit(d0, d1, d2, d3, d4, n + 3));
  }

  lemma SevenParities(d0: bool, d1: bool, d2: bool, d3: bool, d4: bool)
    requires d0 || d1 || d2 || d3 || d4
    ensures OnesOf(d0, d1, d2, d3, d4, 15) >= 7
  {
    FiveMore(d0, d1, d2, d3, d4, 0);
    FiveMore(d0, d1, d2, d3, d4, 5);
    FiveMore(d0, d1, d2, d3, d4, 10);
    assert OnesOf(d0, d1, d2, d3, d4, 0) == 0;
    hide OnesOf;
  }

  /** Every codeword other than 0 has at least seven ones. */
  lemma SevenOnes(data: bv32)
    requires 0 < data < 32
    ensures Ones(SumOfParts(data), 15) >= 7
  {
    hide SumOfParts, HasPlace, Ones, OnesOf;
    SomeBit(data);
    OnesAre(data, 15);
    SevenParities(HasPlace(data, 0x1), HasPlace(data, 0x2), HasPlace(data, 0x4), HasPlace(data, 0x8),
        HasPlace(data, 0x10));
  }

  lemma XorOfData(a: bv32, b: bv32)
    requires a < 32 && b < 32 && a != b
    ensures 0 < Xor(a, b) < 32
  {
  }

  /** The word drawn for a data value, with the mask written out. */
  lemma WordOf(data: bv32)
    requires data < 32
    ensures TypeInfo(data) == Xor(SumOfParts(data), 0x5412)
  {
    WordIsSumOfParts(data);
    XorLaws(TypeInfo(data), G15_MASK, G15_MASK);
    XorLaws(TypeInfo(data), 0, 0);
    hide Xor, TypeInfo, SumOfParts;
  }

  /** The mask flips the bits 1, 4, 10, 12 and 14 of the codeword, and no other. */
  lemma MaskedBits(data: bv32, i: nat)
    requires data < 32 && i < 15
    ensures Bit(TypeInfo(data), i) == (Bit(SumOfParts(data), i) != (i in {1, 4, 10, 12, 14}))
  {
    WordOf(data);
    hide SumOfParts, TypeInfo;
    BitOfXor(SumOfParts(data), 0x5412, i);
    BitsOfMask(i);
    hide Xor, Bit;
  }

  lemma BitsOfMask(i: nat)
    requires i < 15
    ensures Bit(0x5412, i) <==> i in {1, 4, 10, 12, 14}
  {
    match i {
      case 0 => case 1 => case 2 => case 3 => case 4 => case 5 => case 6 => case 7 => case 8 => case 9 =>
      case 10 => case 11 => case 12 => case 13 =>
      case _ => assert i == 14;
    }
  }

  /** The words of different data differ in at least seven of their fifteen bits. */
  lemma SevenBitsApart(a: bv32, b: bv32)
    requires a < 32 && b < 32 && a != b
    ensures Differences(FormatBits(TypeInfo(a)), FormatBits(TypeInfo(b))) >= 7
  {
    var v, w := TypeInfo(a), TypeInfo(b);
    WordIsSumOfParts(a);
    WordIsSumOfParts(b);
    SumsOfParts(a, b);
    XorOfData(a, b);
    SevenOnes(Xor(a, b));
    XorRearrange(v, w, G15_MASK);
    hide Xor, Ones, SumOfParts, TypeInfo, FormatBits;
    DifferencesAreOnes(v, w, 15);
  }

  /** Fifteen bits read with at most three wrong come from the word of one data value only. */
  lemma ThreeWrongBits(a: bv32, b: bv32, read: seq<bool>)
    requires a < 32 && b < 32 && |read| == 15
    requires Differences(FormatBits(TypeInfo(a)), read) <= 3 && Differences(FormatBits(TypeInfo(b)), read) <= 3
    ensures a == b
  {
    hide TypeInfo, FormatBits, DifferencesBelow;
    Triangle(FormatBits(TypeInfo(a)), read, FormatBits(TypeInfo(b)), 15);
    if a != b {
      SevenBitsApart(a, b);
    }
  }
}
