/**
 The QR code object: drawing a symbol module by module, choosing mask and version, and a scanner
 that reads the text back from the modules alone.
 */
module Symbol {
  import opened Wrappers
  import opened GaloisTables
  import opened BitBuffer
  import opened Utf8
  import opened BlockTable
  import opened DataEncoding
  import opened Masks
  import opened Placement
  import opened FunctionPatterns
  import opened FreeModules
  import ReedSolomon
  import Message
  import ErrorCorrection
  import FormatDistance

  // ----- Format information -----

  function LevelCode(level: Level): bv32 {
    match level case L => 1 case M => 0 case Q => 3 case H => 2
  }

  function MaskCode(mask: nat): bv32
    requires mask < 8
  {
    match mask case 0 => 0 case 1 => 1 case 2 => 2 case 3 => 3 case 4 => 4 case 5 => 5 case 6 => 6 case _ => 7
  }

  function FormatData(level: Level, mask: nat): bv32
    requires mask < 8
  {
    (LevelCode(level) << 3) | MaskCode(mask)
  }

  /** The fifteen bits drawn for a level and a mask. */
  function FormatWord(level: Level, mask: nat): bv32
    requires mask < 8
  {
    FormatInformation.TypeInfo(FormatData(level, mask))
  }

  function LevelFrom(data: bv32): Level {
    if data >> 3 == 1 then L else if data >> 3 == 0 then M else if data >> 3 == 3 then Q else H
  }

  function MaskFrom(data: bv32): (mask: nat)
    ensures mask < 8
  {
    var m := data & 7;
    if m == 0 then 0 else if m == 1 then 1 else if m == 2 then 2 else if m == 3 then 3
    else if m == 4 then 4 else if m == 5 then 5 else if m == 6 then 6 else 7
  }

  lemma FormatDataInverse(level: Level, mask: nat)
    requires mask < 8
    ensures LevelFrom(FormatData(level, mask)) == level && MaskFrom(FormatData(level, mask)) == mask
    ensures FormatData(level, mask) < 32
  {
  }

  function Masked(w: bv32, place: bv32): bv32 {
    w & place
  }

  function Or(a: bv32, b: bv32): bv32 {
    a | b
  }

  function Digit(b: bool, place: bv32): bv32 {
    if b then place else 0
  }

  /** Five digits, lowest first. */
  function Five(b: seq<bool>, k: nat, p0: bv32, p1: bv32, p2: bv32, p3: bv32, p4: bv32): bv32
    requires k + 5 <= |b|
  {
    Or(Or(Or(Or(Digit(b[k], p0), Digit(b[k + 1], p1)), Digit(b[k + 2], p2)), Digit(b[k + 3], p3)), Digit(b[k + 4], p4))
  }

  /** The word with the given fifteen bits, lowest first. */
  function Assemble(b: seq<bool>): bv32
    requires |b| == 15
  {
    Or(Or(Five(b, 0, 0x1, 0x2, 0x4, 0x8, 0x10), Five(b, 5, 0x20, 0x40, 0x80, 0x100, 0x200)),
       Five(b, 10, 0x400, 0x800, 0x1000, 0x2000, 0x4000))
  }

  lemma BitPlaces(w: bv32)
    ensures Digit(Bit(w, 0), 0x1) == Masked(w, 0x1) && Digit(Bit(w, 1), 0x2) == Masked(w, 0x2)
    ensures Digit(Bit(w, 2), 0x4) == Masked(w, 0x4) && Digit(Bit(w, 3), 0x8) == Masked(w, 0x8)
    ensures Digit(Bit(w, 4), 0x10) == Masked(w, 0x10) && Digit(Bit(w, 5), 0x20) == Masked(w, 0x20)
    ensures Digit(Bit(w, 6), 0x40) == Masked(w, 0x40) && Digit(Bit(w, 7), 0x80) == Masked(w, 0x80)
    ensures Digit(Bit(w, 8), 0x100) == Masked(w, 0x100) && Digit(Bit(w, 9), 0x200) == Masked(w, 0x200)
    ensures Digit(Bit(w, 10), 0x400) == Masked(w, 0x400) && Digit(Bit(w, 11), 0x800) == Masked(w, 0x800)
    ensures Digit(Bit(w, 12), 0x1000) == Masked(w, 0x1000) && Digit(Bit(w, 13), 0x2000) == Masked(w, 0x2000)
    ensures Digit(Bit(w, 14), 0x4000) == Masked(w, 0x4000)
  {
  }

  lemma FiveMasks(w: bv32, p0: bv32, p1: bv32, p2: bv32, p3: bv32, p4: bv32)
    ensures Or(Or(Or(Or(Masked(w, p0), Masked(w, p1)), Masked(w, p2)), Masked(w, p3)), Masked(w, p4))
            == Masked(w, p0 | p1 | p2 | p3 | p4)
  {
  }

  lemma ThreeMasks(w: bv32)
    requires w < 0x8000
    ensures Or(Or(Masked(w, 0x1f), Masked(w, 0x3e0)), Masked(w, 0x7c00)) == w
  {
  }

  lemma AssembleBits(w: bv32, b: seq<bool>)
    requires w < 0x8000 && |b| == 15
    requires forall i :: 0 <= i < 15 ==> b[i] == Bit(w, i)
    ensures Assemble(b) == w
  {
    BitPlaces(w);
    FiveMasks(w, 0x1, 0x2, 0x4, 0x8, 0x10);
    FiveMasks(w, 0x20, 0x40, 0x80, 0x100, 0x200);
    FiveMasks(w, 0x400, 0x800, 0x1000, 0x2000, 0x4000);
    ThreeMasks(w);
    hide Bit, Digit, Masked, Or;
  }

  /** The format bits as they stand along column 8. */
  function FormatModules(g: Grid): (b: seq<bool>)
    requires |g| >= 21 && forall r :: 0 <= r < |g| ==> |g[r]| == |g|
    ensures |b| == 15
  {
    seq(15, i requires 0 <= i < 15 => At(g, FormatInColumn(|g|, i)) == Some(true))
  }

  function ReadFormat(g: Grid): bv32
    requires |g| >= 21 && forall r :: 0 <= r < |g| ==> |g[r]| == |g|
  {
    Assemble(FormatModules(g))
  }

  /** The five bits that the mask of the standard flips (section 7.9.1), flipped back. */
  function Unmasked(w: bv32): bv32 {
    w ^ 0x4000 ^ 0x1000 ^ 0x400 ^ 0x10 ^ 0x2
  }

  /** Unmasking and dropping the check bits. */
  function DataOfWord(w: bv32): bv32 {
    Unmasked(w) >> 10
  }

  lemma WordFits(data: bv32, rest: bv32)
    requires data < 32 && rest < 0x400
    ensures (data << 10) >> 10 == data
    ensures FormatInformation.Xor(FormatInformation.Xor(data << 10, rest), FormatInformation.G15_MASK) < 0x8000
  {
  }

  lemma DataAbove(data: bv32, rest: bv32)
    requires data < 32 && rest < 0x400
    ensures FormatInformation.Xor(data << 10, rest) >> 10 == data
  {
  }

  lemma UnmaskWord(word: bv32)
    ensures Unmasked(FormatInformation.Xor(word, FormatInformation.G15_MASK)) == word
  {
  }

  /** The format word tells level and mask, and fits fifteen bits. */
  lemma FormatWordTells(level: Level, mask: nat)
    requires mask < 8
    ensures FormatWord(level, mask) < 0x8000
    ensures var data, word := FormatData(level, mask), FormatWord(level, mask);
            Unmasked(word) == FormatInformation.Xor(data << 10, FormatInformation.Remainder(data << 10))
    ensures DataOfWord(FormatWord(level, mask)) == FormatData(level, mask)
    ensures LevelFrom(DataOfWord(FormatWord(level, mask))) == level
    ensures MaskFrom(DataOfWord(FormatWord(level, mask))) == mask
  {
    FormatDataInverse(level, mask);
    hide FormatData, LevelFrom, MaskFrom, Unmasked;
    var data := FormatData(level, mask);
    var rest := FormatInformation.Remainder(data << 10);
    FormatInformation.TypeInfoIsCodeword(data);
    WordFits(data, rest);
    UnmaskWord(FormatInformation.Xor(data << 10, rest));
    DataAbove(data, rest);
  }

  /** The format words of the standard (annex C, table C.1). */
  function StandardWord(level: Level, mask: nat): bv32
    requires mask < 8
  {
    match level
    case L => [0x77c4, 0x72f3, 0x7daa, 0x789d, 0x662f, 0x6318, 0x6c41, 0x6976][mask]
    case M => [0x5412, 0x5125, 0x5e7c, 0x5b4b, 0x45f9, 0x40ce, 0x4f97, 0x4aa0][mask]
    case Q => [0x355f, 0x3068, 0x3f31, 0x3a06, 0x24b4, 0x2183, 0x2eda, 0x2bed][mask]
    case H => [0x1689, 0x13be, 0x1ce7, 0x19d0, 0x0762, 0x0255, 0x0d0c, 0x083b][mask]
  }

  /** The word drawn is the word of the standard. */
  lemma FormatWordIsStandard(level: Level, mask: nat)
    requires mask < 8
    ensures FormatWord(level, mask) == StandardWord(level, mask)
  {
    FormatDataInverse(level, mask);
    FormatDistance.WordOf(FormatData(level, mask));
    hide FormatInformation.TypeInfo, FormatInformation.Xor, FormatInformation.SumOfParts, FormatData, StandardWord;
    match level {
      case L => WordsOfL(mask);
      case M => WordsOfM(mask);
      case Q => WordsOfQ(mask);
      case H => WordsOfH(mask);
    }
  }

  lemma WordsOfL(mask: nat)
    requires mask < 8
    ensures FormatInformation.Xor(FormatInformation.SumOfParts(FormatData(L, mask)), 0x5412) == StandardWord(L, mask)
  {
    match mask {
      case 0 => case 1 => case 2 => case 3 => case 4 => case 5 => case 6 =>
      case _ => assert mask == 7;
    }
  }

  lemma WordsOfM(mask: nat)
    requires mask < 8
    ensures FormatInformation.Xor(FormatInformation.SumOfParts(FormatData(M, mask)), 0x5412) == StandardWord(M, mask)
  {
    match mask {
      case 0 => case 1 => case 2 => case 3 => case 4 => case 5 => case 6 =>
      case _ => assert mask == 7;
    }
  }

  lemma WordsOfQ(mask: nat)
    requires mask < 8
    ensures FormatInformation.Xor(FormatInformation.SumOfParts(FormatData(Q, mask)), 0x5412) == StandardWord(Q, mask)
  {
    match mask {
      case 0 => case 1 => case 2 => case 3 => case 4 => case 5 => case 6 =>
      case _ => assert mask == 7;
    }
  }

  lemma WordsOfH(mask: nat)
    requires mask < 8
    ensures FormatInformation.Xor(FormatInformation.SumOfParts(FormatData(H, mask)), 0x5412) == StandardWord(H, mask)
  {
    match mask {
      case 0 => case 1 => case 2 => case 3 => case 4 => case 5 => case 6 =>
      case _ => assert mask == 7;
    }
  }

  // ----- Bytes of a bit stream -----

  function ByteDigit(b: bool, place: bv8): bv8 {
    if b then place else 0
  }

  function PackByte(b: seq<bool>): bv8
    requires |b| == 8
  {
    ByteDigit(b[0], 0x80) | ByteDigit(b[1], 0x40) | ByteDigit(b[2], 0x20) | ByteDigit(b[3], 0x10)
    | ByteDigit(b[4], 0x08) | ByteDigit(b[5], 0x04) | ByteDigit(b[6], 0x02) | ByteDigit(b[7], 0x01)
  }

  function Pack(bits: seq<bool>): (r: seq<bv8>)
    ensures |r| == |bits| / 8
  {
    seq(|bits| / 8, i requires 0 <= i < |bits| / 8 => PackByte(bits[8 * i..8 * i + 8]))
  }

  lemma PackByteOf(b: bv8)
    ensures PackByte(seq(8, k requires 0 <= k < 8 => BitAt(b, k))) == b
  {
  }

  lemma PackOfBytes(bytes: seq<bv8>)
    ensures Pack(BitsOfBytes(bytes)) == bytes
  {
    hide BitAt, PackByte;
    forall i | 0 <= i < |bytes| ensures Pack(BitsOfBytes(bytes))[i] == bytes[i] {
      PackByteOf(bytes[i]);
      ByteSlice(bytes, i);
    }
  }

  lemma ByteSlice(bytes: seq<bv8>, i: nat)
    requires i < |bytes|
    ensures BitsOfBytes(bytes)[8 * i..8 * i + 8] == seq(8, k requires 0 <= k < 8 => BitAt(bytes[i], k))
  {
    hide BitAt;
    forall k | 0 <= k < 8 ensures BitsOfBytes(bytes)[8 * i + k] == BitAt(bytes[i], k) {
      assert (8 * i + k) / 8 == i && (8 * i + k) % 8 == k;
    }
  }

  // ----- The scanner -----

  /** The unmasked data modules along a path. */
  ghost function ReadModules(g: Grid, typeNumber: int, cells: seq<Cell>, mask: nat): seq<bool>
    requires 1 <= typeNumber <= 10 && mask < 8
    requires Square(g, Side(typeNumber))
  {
    if cells == [] then []
    else
      var x, rest := cells[0], ReadModules(g, typeNumber, cells[1..], mask);
      if !InRange(Side(typeNumber), x) || IsFunction(typeNumber, x) then rest
      else [(At(g, x) == Some(true)) != Flips(mask, x.0, x.1)] + rest
  }

  /** The first `count` bytes of a bit stream; none if it is too short. */
  function FirstBytes(bits: seq<bool>, count: int): seq<bv8> {
    if count < 0 || |bits| < 8 * count then [] else Pack(bits[..8 * count])
  }

  /** The codewords of a symbol read with a mask. */
  ghost function ReadCodewords(g: Grid, typeNumber: int, mask: nat): seq<bv8>
    requires 1 <= typeNumber <= 10 && mask < 8
    requires Square(g, Side(typeNumber))
  {
    FirstBytes(ReadModules(g, typeNumber, Zigzag(Side(typeNumber)), mask), Capacity(typeNumber))
  }

  /** Reads a symbol of the given version: level and mask from its format information, then the texts. */
  ghost function Scan(g: Grid, typeNumber: int): Option<seq<Option<seq<int>>>>
    requires 1 <= typeNumber <= 10 && Square(g, Side(typeNumber))
  {
    var data := DataOfWord(ReadFormat(g));
    Message.ReadTexts(ReadCodewords(g, typeNumber, MaskFrom(data)), typeNumber, LevelFrom(data))
  }

  lemma {:induction false} ReadModulesIs(before: Grid, after: Grid, typeNumber: int, cells: seq<Cell>, mask: nat)
    requires 1 <= typeNumber <= 10 && mask < 8
    requires OnlyFunctions(before, typeNumber)
    requires Square(after, Side(typeNumber)) && AllIn(Side(typeNumber), cells)
    ensures ReadModules(after, typeNumber, cells, mask) == ReadBack(before, after, Side(typeNumber), cells, mask)
  {
    hide IsFunction, Flips;
    if cells != [] {
      ReadModulesIs(before, after, typeNumber, cells[1..], mask);
    }
  }

  /** A symbol as `makeImpl` leaves it: function modules drawn, codewords readable with the mask. */
  ghost predicate Drawn(g: Grid, typeNumber: int, test: bool, level: Level, mask: nat)
    requires 1 <= typeNumber <= 10 && mask < 8
  {
    var n := Side(typeNumber);
    && Square(g, n)
    && forall x :: InRange(n, x) && IsFunction(typeNumber, x) ==>
         At(g, x) == FunctionModule(typeNumber, test, FormatWord(level, mask), x)
  }

  ghost predicate Complete(g: Grid, n: nat) {
    Square(g, n) && forall x :: InRange(n, x) ==> At(g, x).Some?
  }

  lemma FormatReadBack(g: Grid, typeNumber: int, level: Level, mask: nat)
    requires 1 <= typeNumber <= 10 && mask < 8 && Drawn(g, typeNumber, false, level, mask)
    ensures FormatModules(g) == FormatDistance.FormatBits(FormatWord(level, mask))
    ensures ReadFormat(g) == FormatWord(level, mask)
  {
    hide FunctionModule, IsFunction, Assemble, FormatWord, Bit;
    var w := FormatWord(level, mask);
    FormatWordTells(level, mask);
    forall i | 0 <= i < 15 ensures At(g, FormatInColumn(|g|, i)) == Some(Bit(w, i)) {
      FormatIntact(typeNumber, w, i);
      FunctionShape(typeNumber, false, w, FormatInColumn(|g|, i));
    }
    AssembleBits(w, FormatModules(g));
  }

  /** A finished symbol that carries the segments. */
  ghost predicate Shows(g: Grid, typeNumber: int, level: Level, mask: nat, list: seq<Segment>)
    requires 1 <= typeNumber <= 10 && mask < 8
  {
    && Drawn(g, typeNumber, false, level, mask)
    && Message.Carries(ReadCodewords(g, typeNumber, mask), typeNumber, level, list)
  }

  /**
   Whatever symbol shows some texts is scanned as those texts, in order; a text is unreadable
   exactly when it has a code unit 0x80, 0x800 or a surrogate.
   */
  lemma ScanReadsTexts(g: Grid, typeNumber: int, level: Level, mask: nat, texts: seq<seq<CodeUnit>>)
    requires 1 <= typeNumber <= 10 && mask < 8 && Shows(g, typeNumber, level, mask, Message.EncodeAll(texts))
    ensures Scan(g, typeNumber) == Some(Message.Readable(texts))
  {
    FormatReadBack(g, typeNumber, level, mask);
    FormatWordTells(level, mask);
    hide DataOfWord, ReadFormat, ReadCodewords, MaskFrom, LevelFrom, FormatWord, Encodable, Drawn, Message.Carries;
    Message.TextsReadBack(ReadCodewords(g, typeNumber, mask), typeNumber, level, Message.EncodeAll(texts), texts);
  }

  // ----- Damaged symbols -----

  /** No block has more wrong bytes than half its error-correction bytes. */
  ghost predicate CodewordsLegible(g: Grid, seen: Grid, typeNumber: int, level: Level, mask: nat)
    requires 1 <= typeNumber <= 10 && mask < 8 && Square(g, Side(typeNumber)) && Square(seen, Side(typeNumber))
  {
    Message.Correctable(ReadCodewords(g, typeNumber, mask), ReadCodewords(seen, typeNumber, mask),
                        Message.BlocksOf(typeNumber, level))
  }

  lemma FormatWordIs(level: Level, mask: nat)
    requires mask < 8
    ensures FormatWord(level, mask) == FormatInformation.TypeInfo(FormatData(level, mask))
    ensures FormatData(level, mask) < 32
    ensures LevelFrom(FormatData(level, mask)) == level && MaskFrom(FormatData(level, mask)) == mask
  {
    FormatDataInverse(level, mask);
  }

  /** The format words of two different choices of level and mask differ in at least seven bits. */
  lemma FormatWordsApart(level: Level, mask: nat, other: Level, otherMask: nat)
    requires mask < 8 && otherMask < 8 && (level != other || mask != otherMask)
    ensures ErrorCorrection.Differences(FormatDistance.FormatBits(FormatWord(level, mask)),
                                        FormatDistance.FormatBits(FormatWord(other, otherMask))) >= 7
  {
    FormatWordIs(level, mask);
    FormatWordIs(other, otherMask);
    hide *;
    FormatDistance.SevenBitsApart(FormatData(level, mask), FormatData(other, otherMask));
  }

  /** With at most three wrong format bits there is one level and mask the symbol can have. */
  lemma LegibleFormat(g: Grid, other: Grid, seen: Grid, typeNumber: int,
                      level: Level, mask: nat, otherLevel: Level, otherMask: nat)
    requires 1 <= typeNumber <= 10 && mask < 8 && otherMask < 8
    requires Drawn(g, typeNumber, false, level, mask) && Drawn(other, typeNumber, false, otherLevel, otherMask)
    requires Square(seen, Side(typeNumber))
    requires ErrorCorrection.Differences(FormatModules(g), FormatModules(seen)) <= 3
    requires ErrorCorrection.Differences(FormatModules(other), FormatModules(seen)) <= 3
    ensures level == otherLevel && mask == otherMask
  {
    FormatReadBack(g, typeNumber, level, mask);
    FormatReadBack(other, typeNumber, otherLevel, otherMask);
    FormatWordIs(level, mask);
    FormatWordIs(otherLevel, otherMask);
    hide Drawn, FormatModules, FormatWord, FormatData, LevelFrom, MaskFrom;
    FormatDistance.ThreeWrongBits(FormatData(level, mask), FormatData(otherLevel, otherMask), FormatModules(seen));
  }

  /** Modules seen with that much damage come from one level, one mask and one list of segments only. */
  lemma DamagedSymbol(g: Grid, other: Grid, seen: Grid, typeNumber: int,
                      level: Level, mask: nat, list: seq<Segment>,
                      otherLevel: Level, otherMask: nat, otherList: seq<Segment>)
    requires 1 <= typeNumber <= 10 && mask < 8 && otherMask < 8
    requires Shows(g, typeNumber, level, mask, list) && Shows(other, typeNumber, otherLevel, otherMask, otherList)
    requires Square(seen, Side(typeNumber))
    requires ErrorCorrection.Differences(FormatModules(g), FormatModules(seen)) <= 3
    requires ErrorCorrection.Differences(FormatModules(other), FormatModules(seen)) <= 3
    requires CodewordsLegible(g, seen, typeNumber, level, mask)
    requires CodewordsLegible(other, seen, typeNumber, otherLevel, otherMask)
    ensures level == otherLevel && mask == otherMask && list == otherList
  {
    hide Message.Carries, Message.Correctable, ReadCodewords, FormatModules;
    LegibleFormat(g, other, seen, typeNumber, level, mask, otherLevel, otherMask);
    Message.DamagedCarriesOnce(ReadCodewords(g, typeNumber, mask), ReadCodewords(other, typeNumber, mask),
                               ReadCodewords(seen, typeNumber, mask), typeNumber, level, list, otherList);
  }

  /** Placing codewords into the free modules and reading them back. */
  lemma PlacedReadsBack(before: Grid, typeNumber: int, data: seq<bv8>, mask: nat)
    requires 1 <= typeNumber <= 10 && mask < 8
    requires OnlyFunctions(before, typeNumber)
    requires |data| == Capacity(typeNumber)
    ensures AllIn(Side(typeNumber), Zigzag(Side(typeNumber)))
    ensures var n := Side(typeNumber);
            var after := Placed(before, n, Zigzag(n), data, 0, mask);
            && Complete(after, n)
            && ReadCodewords(after, typeNumber, mask) == data
            && forall x :: InRange(n, x) && IsFunction(typeNumber, x) ==> At(after, x) == At(before, x)
  {
    hide IsFunction, Placed, Zigzag, Capacity, ReadBack, FreeCount, DataBit;
    var n := Side(typeNumber);
    forall r | 0 <= r < n ensures At(before, (r, 6)).Some? {
      ColumnSixDecided(typeNumber, r);
    }
    PlacementCorrect(before, n, data, mask);
    RoomForCodewords(before, typeNumber);
    var after := Placed(before, n, Zigzag(n), data, 0, mask);
    ReadModulesIs(before, after, typeNumber, Zigzag(n), mask);
    var free := FreeCount(before, n, Zigzag(n));
    DataBitsOf(data, free);
    PackOfBytes(data);
  }

  lemma DataBitsOf(data: seq<bv8>, count: nat)
    requires count >= 8 * |data|
    ensures DataBits(data, 0, count)[..8 * |data|] == BitsOfBytes(data)
  {
    hide BitAt;
    var bits := DataBits(data, 0, count)[..8 * |data|];
    assert forall k :: 0 <= k < 8 * |data| ==> bits[k] == BitsOfBytes(data)[k];
  }

  // ----- Choosing a mask -----

  /** What drawing with a mask on trial leaves: light format modules, and the data if there is any. */
  ghost predicate IsTrial(g: Grid, typeNumber: int, level: Level, mask: nat, list: seq<Segment>)
    requires 1 <= typeNumber <= 10 && mask < 8
  {
    && Drawn(g, typeNumber, true, level, mask)
    && (list != [] ==> Complete(g, Side(typeNumber))
                       && Message.Carries(ReadCodewords(g, typeNumber, mask), typeNumber, level, list))
  }

  /** One trial for each mask. */
  ghost predicate AreTrials(trials: seq<Grid>, typeNumber: int, level: Level, list: seq<Segment>)
    requires 1 <= typeNumber <= 10
  {
    |trials| == 8 && forall i :: 0 <= i < 8 ==> IsTrial(trials[i], typeNumber, level, i, list)
  }

  /** The first of the lowest scores. */
  ghost predicate IsBest(lostPoint: Grid -> real, trials: seq<Grid>, mask: nat) {
    && mask < |trials|
    && (forall i :: 0 <= i < |trials| ==> lostPoint(trials[mask]) <= lostPoint(trials[i]))
    && (forall i :: 0 <= i < mask ==> lostPoint(trials[mask]) < lostPoint(trials[i]))
  }

  /** The scores determine the mask: of equally good ones the first. */
  lemma BestIsOne(lostPoint: Grid -> real, trials: seq<Grid>, mask: nat, other: nat)
    requires IsBest(lostPoint, trials, mask)
    ensures IsBest(lostPoint, trials, other) <==> other == mask
    ensures other < |trials| ==> lostPoint(trials[mask]) <= lostPoint(trials[other])
    ensures other < |trials| && lostPoint(trials[other]) == lostPoint(trials[mask]) ==> mask <= other
  {
    if IsBest(lostPoint, trials, other) {
      assert lostPoint(trials[mask]) == lostPoint(trials[other]);
    }
  }

  lemma TrialFrom(g: Grid, typeNumber: int, level: Level, mask: nat, list: seq<Segment>)
    requires 1 <= typeNumber <= 10 && mask < 8
    requires Drawn(g, typeNumber, true, level, mask)
    requires list != [] ==> Complete(g, Side(typeNumber))
                            && Message.Carries(ReadCodewords(g, typeNumber, mask), typeNumber, level, list)
    ensures IsTrial(g, typeNumber, level, mask, list)
  {
  }

  lemma BestFrom(lostPoint: Grid -> real, trials: seq<Grid>, mask: nat, typeNumber: int,
                 level: Level, list: seq<Segment>)
    requires 1 <= typeNumber <= 10 && |trials| == 8 && mask < 8
    requires forall i :: 0 <= i < 8 ==> IsTrial(trials[i], typeNumber, level, i, list)
    requires forall i :: 0 <= i < 8 ==> lostPoint(trials[mask]) <= lostPoint(trials[i])
    requires forall i :: 0 <= i < mask ==> lostPoint(trials[mask]) < lostPoint(trials[i])
    ensures AreTrials(trials, typeNumber, level, list) && IsBest(lostPoint, trials, mask)
  {
    hide IsTrial;
  }

  lemma BestBelow8(lostPoint: Grid -> real, trials: seq<Grid>, mask: nat, typeNumber: int,
                   level: Level, list: seq<Segment>)
    requires 1 <= typeNumber <= 10 && AreTrials(trials, typeNumber, level, list) && IsBest(lostPoint, trials, mask)
    ensures mask < 8
  {
    hide IsTrial;
  }

  // ----- The object -----

  class QRCode {
    var typeNumber: int
    const errorCorrectLevel: Level
    var modules: array2<Option<bool>>
    var dataList: seq<Segment>

    constructor (typeNumber: int, errorCorrectLevel: Level)
      ensures this.typeNumber == typeNumber && this.errorCorrectLevel == errorCorrectLevel && dataList == []
      ensures modules.Length0 == 0
    {
      this.typeNumber := typeNumber;
      this.errorCorrectLevel := errorCorrectLevel;
      modules := new Option<bool>[0, 0];
      dataList := [];
    }

    method AddData(data: seq<CodeUnit>)
      modifies this`dataList
      ensures dataList == old(dataList) + [Encode(data)]
    {
      var newData := QR8BitByte(data);
      dataList := dataList + [newData];
    }

    /** The segments fit the current version, which has a block table. */
    ghost predicate Fitting()
      reads this`typeNumber, this`dataList
    {
      1 <= typeNumber <= 10
      && |StreamBits(dataList, CountWidth(typeNumber))|
         <= 8 * TotalData(Message.BlocksOf(typeNumber, errorCorrectLevel))
    }

    /** Function patterns and format information of the current version. */
    method DrawFunctions(test: bool, maskPattern: nat) returns (ok: bool)
      requires maskPattern < 8
      modifies this`modules
      ensures fresh(modules)
      ensures ok <==> 1 <= typeNumber <= 10
      ensures ok ==> modules.Length0 == modules.Length1 == Side(typeNumber)
      ensures ok ==> Drawn(Snapshot(modules), typeNumber, test, errorCorrectLevel, maskPattern)
                     && OnlyFunctions(Snapshot(modules), typeNumber)
    {
      var moduleCount := typeNumber * 4 + 17;
      if moduleCount < 0 {
        modules := new Option<bool>[0, 0];
        return false;
      }
      modules := new Option<bool>[moduleCount, moduleCount]((i, j) => None);
      SideAtLeast21(typeNumber);
      hide *;
      ok := DrawPatterns(modules, typeNumber, test, FormatData(errorCorrectLevel, maskPattern));
      if ok {
        IsFormatWord(errorCorrectLevel, maskPattern);
        DrawnFrom(Snapshot(modules), typeNumber, test, errorCorrectLevel, maskPattern);
      }
    }

    /** Draws the symbol; throws for an unknown version or when the data does not fit. */
    method MakeImpl(math: QRMath, test: bool, maskPattern: nat) returns (ok: bool)
      requires math.Valid() && maskPattern < 8
      modifies this`modules
      ensures fresh(modules)
      ensures ok <==> 1 <= typeNumber <= 10 && (dataList == [] || Fitting())
      ensures ok ==> modules.Length0 == modules.Length1 == Side(typeNumber)
      ensures ok ==> Drawn(Snapshot(modules), typeNumber, test, errorCorrectLevel, maskPattern)
      ensures ok && dataList != [] ==>
                && Complete(Snapshot(modules), Side(typeNumber))
                && Message.Carries(ReadCodewords(Snapshot(modules), typeNumber, maskPattern), typeNumber,
                    errorCorrectLevel, dataList)
    {
      hide *;
      ok := DrawFunctions(test, maskPattern);
      if !ok || |dataList| == 0 {
        NotFitting(this);
        return;
      }
      NotFitting(this);
      var data := Message.CreateData(math, typeNumber, errorCorrectLevel, dataList);
      if data.Throws? {
        return false;
      }
      ghost var before := Snapshot(modules);
      MessageSize(ReedSolomon.Vals(data.value), typeNumber, errorCorrectLevel, dataList);
      PlacedReadsBack(before, typeNumber, ReedSolomon.Vals(data.value), maskPattern);
      SideAtLeast21(typeNumber);
      MapData(modules, ReedSolomon.Vals(data.value), maskPattern);
      StillDrawn(before, Snapshot(modules), typeNumber, test, errorCorrectLevel, maskPattern);
    }

    /**
     Draws a trial symbol with every mask and returns the first mask whose symbol has the lowest
     score; `lostPoint` is the score of a symbol.
     */
    method GetBestMaskPattern(math: QRMath, lostPoint: Grid -> real) returns (r: Result<nat>, ghost trials: seq<Grid>)
      requires math.Valid()
      modifies this`modules
      ensures fresh(modules)
      ensures r.Ok? <==> 1 <= typeNumber <= 10 && (dataList == [] || Fitting())
      ensures r.Ok? ==> AreTrials(trials, typeNumber, errorCorrectLevel, dataList) && IsBest(lostPoint, trials, r.value)
    {
      hide *;
      var minLostPoint := 0.0;
      var pattern := 0;
      modules := new Option<bool>[0, 0];
      trials := [];
      for i := 0 to 8
        invariant |trials| == i && pattern < 8
        invariant i > 0 ==> 1 <= typeNumber <= 10 && (dataList == [] || Fitting())
        invariant i > 0 ==> pattern < i && minLostPoint == lostPoint(trials[pattern])
        invariant forall j :: 0 <= j < i ==> IsTrial(trials[j], typeNumber, errorCorrectLevel, j, dataList)
        invariant forall j :: 0 <= j < i ==> minLostPoint <= lostPoint(trials[j])
        invariant forall j :: 0 <= j < i && j < pattern ==> minLostPoint < lostPoint(trials[j])
        invariant fresh(modules)
      {
        var ok := MakeImpl(math, true, i);
        if !ok {
          return Throws, trials;
        }
        TrialFrom(Snapshot(modules), typeNumber, errorCorrectLevel, i, dataList);
        trials := trials + [Snapshot(modules)];
        var lost := lostPoint(Snapshot(modules));
        if i == 0 || minLostPoint > lost {
          minLostPoint := lost;
          pattern := i;
        }
      }
      r := Ok(pattern);
      BestFrom(lostPoint, trials, pattern, typeNumber, errorCorrectLevel, dataList);
    }

    /**
     Makes the symbol. With no version given it takes the smallest below 10 that fits, else 10;
     it throws exactly when the data does not fit the version. The symbol is drawn with the best
     mask, and it scans as all texts added, in order.
     */
    method Make(math: QRMath, lostPoint: Grid -> real) returns (ok: bool, ghost trials: seq<Grid>, ghost mask: nat)
      requires math.Valid()
      modifies this
      ensures dataList == old(dataList)
      ensures old(typeNumber) >= 1 ==> typeNumber == old(typeNumber)
      ensures old(typeNumber) < 1 ==>
                && 1 <= typeNumber <= 10
                && (forall t :: 1 <= t < typeNumber ==>
                      GetRsBlockTable(t, errorCorrectLevel).Some? && !Fits(t, errorCorrectLevel, dataList))
                && (typeNumber < 10 ==> Fitting())
      ensures ok <==> 1 <= typeNumber <= 10 && (dataList == [] || Fitting())
      ensures ok ==> modules.Length0 == modules.Length1 == Side(typeNumber)
      ensures ok ==> AreTrials(trials, typeNumber, errorCorrectLevel, dataList) && IsBest(lostPoint, trials, mask)
      ensures ok ==> Drawn(Snapshot(modules), typeNumber, false, errorCorrectLevel, mask)
      ensures ok && dataList != [] ==> Complete(Snapshot(modules), Side(typeNumber))
      ensures ok ==> forall texts: seq<seq<CodeUnit>> :: texts != [] && dataList == Message.EncodeAll(texts) ==>
                Scan(Snapshot(modules), typeNumber) == Some(Message.Readable(texts))
    {
      hide *;
      if typeNumber < 1 {
        typeNumber := ChooseVersion(errorCorrectLevel, dataList);
        FittingIsFits(this);
      }
      var pattern, drawn := GetBestMaskPattern(math, lostPoint);
      if pattern.Throws? {
        return false, drawn, 0;
      }
      trials, mask := drawn, pattern.value;
      assert mask < 8 by {
        BestBelow8(lostPoint, trials, mask, typeNumber, errorCorrectLevel, dataList);
      }
      ok := MakeImpl(math, false, pattern.value);
      forall texts: seq<seq<CodeUnit>> | ok && texts != [] && dataList == Message.EncodeAll(texts)
        ensures Scan(Snapshot(modules), typeNumber) == Some(Message.Readable(texts))
      {
        ShowsFrom(Snapshot(modules), typeNumber, errorCorrectLevel, pattern.value, dataList);
        ScanReadsTexts(Snapshot(modules), typeNumber, errorCorrectLevel, pattern.value, texts);
      }
    }

    /** The value of a module; throws outside the symbol. */
    method IsDark(row: int, col: int) returns (r: Result<Option<bool>>)
      requires modules.Length0 == modules.Length1
      ensures r == if InRange(modules.Length0, (row, col)) then Ok(modules[row, col]) else Throws
    {
      if row < 0 || modules.Length0 <= row || col < 0 || modules.Length0 <= col {
        return Throws;
      }
      r := Ok(modules[row, col]);
    }
  }

  method DrawFinders(m: array2<Option<bool>>)
    requires m.Length0 == m.Length1
    requires forall i, j :: 0 <= i < m.Length0 && 0 <= j < m.Length0 ==> m[i, j] == None
    modifies m
    ensures forall i, j :: 0 <= i < m.Length0 && 0 <= j < m.Length0 ==> m[i, j] == FindersAt(m.Length0, (i, j))
    ensures forall i, j :: 0 <= i < m.Length0 && 0 <= j < m.Length0 ==> (m[i, j].Some? <==> InFinder(m.Length0, (i, j)))
  {
    SetupPositionProbePattern(m, 0, 0);
    SetupPositionProbePattern(m, m.Length0 - 7, 0);
    SetupPositionProbePattern(m, 0, m.Length0 - 7);
    hide FinderDark;
  }

  function FindersAt(n: int, x: Cell): Option<bool> {
    if Finder(0, n - 7, x).Some? then Finder(0, n - 7, x)
    else if Finder(n - 7, 0, x).Some? then Finder(n - 7, 0, x)
    else Finder(0, 0, x)
  }

  /** The drawing calls of `makeImpl`, in their order. */
  method DrawPatterns(m: array2<Option<bool>>, typeNumber: int, test: bool, data: bv32) returns (ok: bool)
    requires m.Length0 == m.Length1 == Side(typeNumber)
    requires forall i, j :: 0 <= i < m.Length0 && 0 <= j < m.Length0 ==> m[i, j] == None
    modifies m
    ensures ok <==> 1 <= typeNumber <= 10
    ensures ok ==> FunctionGrid(Snapshot(m), typeNumber, test, FormatInformation.TypeInfo(data))
  {
    SideAtLeast21(typeNumber);
    hide *;
    DrawFinders(m);
    ghost var finders := Snapshot(m);
    ok := SetupPositionAdjustPattern(m, typeNumber);
    if !ok {
      return;
    }
    ghost var aligned := Snapshot(m);
    forall x ensures AlignmentOver(finders, m.Length0, GetPatternPosition(typeNumber).value, x)
                     == Alignment(GetPatternPosition(typeNumber).value, x)
    {
      AlignmentOverFinders(finders, m.Length0, GetPatternPosition(typeNumber).value, x);
    }
    SetupTimingPattern(m);
    ghost var timed := Snapshot(m);
    var bits := SetupTypeInfo(m, test, data);
    FunctionsDrawn(finders, aligned, timed, Snapshot(m), m.Length0, typeNumber, test, bits);
  }

  /** The grid after all function patterns. */
  ghost predicate FunctionGrid(g: Grid, typeNumber: int, test: bool, bits: bv32)
    requires 1 <= typeNumber <= 10
  {
    var n := Side(typeNumber);
    Square(g, n) && forall x :: InRange(n, x) ==> At(g, x) == FunctionModule(typeNumber, test, bits, x)
  }

  lemma FunctionsDrawn(finders: Grid, aligned: Grid, timed: Grid, drawn: Grid, n: nat,
                       typeNumber: int, test: bool, bits: bv32)
    requires 1 <= typeNumber <= 10 && GetPatternPosition(typeNumber).Some?
    requires n == Side(typeNumber) && Square(finders, n) && Square(aligned, n) && Square(timed, n) && Square(drawn, n)
    requires forall i, j :: 0 <= i < n && 0 <= j < n ==> finders[i][j] == FindersAt(n, (i, j))
    requires forall i, j :: 0 <= i < n && 0 <= j < n ==>
               aligned[i][j] == var a := Alignment(GetPatternPosition(typeNumber).value, (i, j));
                                if a.Some? then a else finders[i][j]
    requires forall i, j :: 0 <= i < n && 0 <= j < n ==>
               timed[i][j] == if aligned[i][j] == None && InTiming(n, (i, j)) then Some((i + j) % 2 == 0)
                              else aligned[i][j]
    requires forall i, j :: 0 <= i < n && 0 <= j < n ==>
               drawn[i][j] == var f := FormatIndex(n, (i, j));
                              if (i, j) == (n - 8, 8) then Some(!test)
                              else if f.Some? && f.value < 15 then Some(!test && Bit(bits, f.value)) else timed[i][j]
    ensures FunctionGrid(drawn, typeNumber, test, bits)
  {
    hide GetPatternPosition, Alignment, FormatIndex, Bit, Finder, InTiming;
    forall x | InRange(n, x) ensures At(drawn, x) == FunctionModule(typeNumber, test, bits, x) {
      var i, j := x.0, x.1;
      assert x == (i, j) && finders[i][j] == FindersAt(n, (i, j));
    }
  }

  lemma IsFormatWord(level: Level, mask: nat)
    requires mask < 8
    ensures FormatInformation.TypeInfo(FormatData(level, mask)) == FormatWord(level, mask)
  {
  }

  lemma SideAtLeast21(typeNumber: int)
    ensures Side(typeNumber) == 4 * typeNumber + 17
    ensures 1 <= typeNumber <= 10 ==> Side(typeNumber) >= 21 && GetPatternPosition(typeNumber).Some?
  {
  }

  lemma DrawnFrom(g: Grid, typeNumber: int, test: bool, level: Level, mask: nat)
    requires 1 <= typeNumber <= 10 && mask < 8
    requires FunctionGrid(g, typeNumber, test, FormatWord(level, mask))
    ensures Drawn(g, typeNumber, test, level, mask) && OnlyFunctions(g, typeNumber)
  {
  }

  lemma StillDrawn(before: Grid, after: Grid, typeNumber: int, test: bool, level: Level, mask: nat)
    requires 1 <= typeNumber <= 10 && mask < 8
    requires Drawn(before, typeNumber, test, level, mask) && Square(after, Side(typeNumber))
    requires forall x :: InRange(Side(typeNumber), x) && IsFunction(typeNumber, x) ==> At(after, x) == At(before, x)
    ensures Drawn(after, typeNumber, test, level, mask)
  {
    hide FunctionModule, IsFunction, FormatWord;
  }

  lemma MessageSize(msg: seq<bv8>, typeNumber: int, level: Level, list: seq<Segment>)
    requires 1 <= typeNumber <= 10 && Message.Carries(msg, typeNumber, level, list)
    ensures |msg| == Capacity(typeNumber)
  {
    BlocksFacts(typeNumber, level);
    hide GetRsBlockTable, Capacity, Expand;
  }

  lemma ShowsFrom(g: Grid, typeNumber: int, level: Level, mask: nat, list: seq<Segment>)
    requires 1 <= typeNumber <= 10 && mask < 8
    requires Drawn(g, typeNumber, false, level, mask)
    requires Message.Carries(ReadCodewords(g, typeNumber, mask), typeNumber, level, list)
    ensures Shows(g, typeNumber, level, mask, list)
  {
  }

  lemma NotFitting(code: QRCode)
    ensures code.Fitting()
            == (1 <= code.typeNumber <= 10
                && |StreamBits(code.dataList, CountWidth(code.typeNumber))|
                   <= 8 * TotalData(Message.BlocksOf(code.typeNumber, code.errorCorrectLevel)))
  {
  }

  lemma FittingIsFits(code: QRCode)
    requires 1 <= code.typeNumber <= 10
    ensures GetRsBlockTable(code.typeNumber, code.errorCorrectLevel).Some?
    ensures code.Fitting() <==> Fits(code.typeNumber, code.errorCorrectLevel, code.dataList)
  {
    StreamHasSize(code.dataList, CountWidth(code.typeNumber));
    hide StreamBits, StreamSize;
  }
}
