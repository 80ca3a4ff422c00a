/**
 The eight mask patterns: the program's conditions, the figures they draw, and what tells one
 from another.
 */
module Masks {
  /** The condition of the program for flipping the module in row i, column j. */
  predicate GetMask(maskPattern: nat, i: int, j: int)
    requires maskPattern < 8 && i >= 0 && j >= 0
  {
    match maskPattern
    case 0 => (i + j) % 2 == 0
    case 1 => i % 2 == 0
    case 2 => j % 3 == 0
    case 3 => (i + j) % 3 == 0
    case 4 => (i / 2 + j / 3) % 2 == 0
    case 5 => (i * j) % 2 + (i * j) % 3 == 0
    case 6 => ((i * j) % 2 + (i * j) % 3) % 2 == 0
    case _ => ((i * j) % 3 + (i + j) % 2) % 2 == 0
  }

  // ----- The figures: the columns flipped in row r, of the first six -----

  function Chessboard(r: nat): set<int> {
    match r % 2
    case 0 => {0, 2, 4}                 // #.#.#.
    case _ => {1, 3, 5}                 // .#.#.#
  }

  function Stripes(r: nat): set<int> {
    match r % 2
    case 0 => {0, 1, 2, 3, 4, 5}        // ######
    case _ => {}                        // ......
  }

  function Columns(r: nat): set<int> {
    {0, 3}                              // #..#..
  }

  function Diagonals(r: nat): set<int> {
    match r % 3
    case 0 => {0, 3}                    // #..#..
    case 1 => {2, 5}                    // ..#..#
    case _ => {1, 4}                    // .#..#.
  }

  function Blocks(r: nat): set<int> {
    match r % 4
    case 0 => {0, 1, 2}                 // ###...
    case 1 => {0, 1, 2}                 // ###...
    case 2 => {3, 4, 5}                 // ...###
    case _ => {3, 4, 5}                 // ...###
  }

  function Crosses(r: nat): set<int> {
    match r % 6
    case 0 => {0, 1, 2, 3, 4, 5}        // ######
    case 1 => {0}                       // #.....
    case 2 => {0, 3}                    // #..#..
    case 3 => {0, 2, 4}                 // #.#.#.
    case 4 => {0, 3}                    // #..#..
    case _ => {0}                       // #.....
  }

  function Lozenges(r: nat): set<int> {
    match r % 6
    case 0 => {0, 1, 2, 3, 4, 5}        // ######
    case 1 => {0, 1, 2}                 // ###...
    case 2 => {0, 1, 3, 4}              // ##.##.
    case 3 => {0, 2, 4}                 // #.#.#.
    case 4 => {0, 2, 3, 5}              // #.##.#
    case _ => {0, 4, 5}                 // #...##
  }

  function Weave(r: nat): set<int> {
    match r % 6
    case 0 => {0, 2, 4}                 // #.#.#.
    case 1 => {3, 4, 5}                 // ...###
    case 2 => {0, 4, 5}                 // #...##
    case 3 => {1, 3, 5}                 // .#.#.#
    case 4 => {0, 1, 2}                 // ###...
    case _ => {1, 2, 3}                 // .###..
  }

  /** The figure of a mask flips the module in row i, column j; it repeats to the right and downwards. */
  predicate Flips(mask: nat, i: int, j: int)
    requires mask < 8 && i >= 0 && j >= 0
  {
    j % 6 in match mask
             case 0 => Chessboard(i)
             case 1 => Stripes(i)
             case 2 => Columns(i)
             case 3 => Diagonals(i)
             case 4 => Blocks(i)
             case 5 => Crosses(i)
             case 6 => Lozenges(i)
             case _ => Weave(i)
  }

  function Times(i: nat, j: nat): nat {
    i * j
  }

  lemma TwiceAndRest(a: nat, p: nat, j: nat)
    requires p < 2
    ensures Times(2 * a + p, j) == 2 * Times(a, j) + if p == 0 then 0 else j
  {
  }

  lemma ThriceAndRest(b: nat, q: nat, j: nat)
    requires q < 3
    ensures Times(3 * b + q, j) == 3 * Times(b, j) + if q == 0 then 0 else if q == 1 then j else 2 * j
  {
  }

  /** The product modulo 2. */
  function Two(i: nat, j: nat): nat {
    if i % 2 == 0 then 0 else j % 2
  }

  /** The product modulo 3. */
  function Three(i: nat, j: nat): nat {
    if i % 3 == 0 then 0 else if i % 3 == 1 then j % 3 else (2 * j) % 3
  }

  /** A product modulo 2 and 3 depends on its factors modulo 2 and 3. */
  lemma ProductModulo(i: nat, j: nat)
    ensures Times(i, j) % 2 == Two(i, j) && Times(i, j) % 3 == Three(i, j)
  {
    hide Times;
    assert i == 2 * (i / 2) + i % 2 && i == 3 * (i / 3) + i % 3;
    TwiceAndRest(i / 2, i % 2, j);
    ThriceAndRest(i / 3, i % 3, j);
  }

  lemma Multiple(m: nat, x: nat)
    ensures (2 * m + x) % 2 == x % 2
  {
  }

  lemma MultipleOf3(m: nat, x: nat)
    ensures (3 * m + x) % 3 == x % 3
  {
  }

  lemma MultipleOf4(m: nat, x: nat)
    ensures (4 * m + x) % 4 == x % 4
  {
  }

  lemma MultipleOf6(m: nat, x: nat)
    ensures (6 * m + x) % 6 == x % 6
  {
  }

  /** All that the conditions depend on, for row 12q + r and column 6p + c. */
  lemma Remainders(q: nat, r: nat, p: nat, c: nat)
    ensures (12 * q + r) % 2 == r % 2 && (12 * q + r) % 3 == r % 3
    ensures (6 * p + c) % 2 == c % 2 && (6 * p + c) % 3 == c % 3 && (2 * (6 * p + c)) % 3 == (2 * c) % 3
    ensures (12 * q + r + (6 * p + c)) % 2 == (r + c) % 2 && (12 * q + r + (6 * p + c)) % 3 == (r + c) % 3
    ensures ((12 * q + r) / 2 + (6 * p + c) / 3) % 2 == (r / 2 + c / 3) % 2
  {
    Multiple(6 * q, r);
    MultipleOf3(4 * q, r);
    Multiple(3 * p, c);
    MultipleOf3(2 * p, c);
    MultipleOf3(4 * p, 2 * c);
    Multiple(6 * q + 3 * p, r + c);
    MultipleOf3(4 * q + 2 * p, r + c);
    Quotients(q, r, p, c);
    Multiple(3 * q + p, r / 2 + c / 3);
  }

  lemma Quotients(q: nat, r: nat, p: nat, c: nat)
    ensures (12 * q + r) / 2 == 6 * q + r / 2 && (6 * p + c) / 3 == 2 * p + c / 3
  {
  }

  lemma LinesRepeat(q: nat, r: nat)
    ensures (12 * q + r) % 2 == r % 2 && (12 * q + r) % 3 == r % 3 && (12 * q + r) % 4 == r % 4
    ensures (12 * q + r) % 6 == r % 6
  {
    Multiple(6 * q, r);
    MultipleOf3(4 * q, r);
    MultipleOf4(3 * q, r);
    MultipleOf6(2 * q, r);
  }

  lemma ChessboardDrawn(r: nat, c: nat)
    requires r < 12 && c < 6
    ensures (r + c) % 2 == 0 <==> c in Chessboard(r)
  {
    match c {
      case 0 => case 1 => case 2 => case 3 => case 4 =>
      case _ => assert c == 5;
    }
  }

  lemma StripesDrawn(r: nat, c: nat)
    requires r < 12 && c < 6
    ensures r % 2 == 0 <==> c in Stripes(r)
  {
    match c {
      case 0 => case 1 => case 2 => case 3 => case 4 =>
      case _ => assert c == 5;
    }
  }

  lemma ColumnsDrawn(r: nat, c: nat)
    requires r < 12 && c < 6
    ensures c % 3 == 0 <==> c in Columns(r)
  {
    match c {
      case 0 => case 1 => case 2 => case 3 => case 4 =>
      case _ => assert c == 5;
    }
  }

  lemma DiagonalsDrawn(r: nat, c: nat)
    requires r < 12 && c < 6
    ensures (r + c) % 3 == 0 <==> c in Diagonals(r)
  {
    match c {
      case 0 => case 1 => case 2 => case 3 => case 4 =>
      case _ => assert c == 5;
    }
  }

  lemma BlocksDrawn(r: nat, c: nat)
    requires r < 12 && c < 6
    ensures (r / 2 + c / 3) % 2 == 0 <==> c in Blocks(r)
  {
    match c {
      case 0 => case 1 => case 2 => case 3 => case 4 =>
      case _ => assert c == 5;
    }
  }

  lemma CrossesDrawn(r: nat, c: nat)
    requires r < 12 && c < 6
    ensures Two(r, c) + Three(r, c) == 0 <==> c in Crosses(r)
  {
    match c {
      case 0 => case 1 => case 2 => case 3 => case 4 =>
      case _ => assert c == 5;
    }
  }

  lemma LozengesDrawn(r: nat, c: nat)
    requires r < 12 && c < 6
    ensures (Two(r, c) + Three(r, c)) % 2 == 0 <==> c in Lozenges(r)
  {
    match c {
      case 0 => case 1 => case 2 => case 3 => case 4 =>
      case _ => assert c == 5;
    }
  }

  lemma WeaveDrawn(r: nat, c: nat)
    requires r < 12 && c < 6
    ensures (Three(r, c) + (r + c) % 2) % 2 == 0 <==> c in Weave(r)
  {
    match c {
      case 0 => case 1 => case 2 => case 3 => case 4 =>
      case _ => assert c == 5;
    }
  }

  /** The figures are those of the conditions in the first twelve rows and six columns. */
  lemma FirstFigures(mask: nat, r: nat, c: nat)
    requires mask < 8 && r < 12 && c < 6
    ensures GetMask(mask, r, c) == Flips(mask, r, c)
  {
    ProductModulo(r, c);
    ChessboardDrawn(r, c);
    StripesDrawn(r, c);
    ColumnsDrawn(r, c);
    DiagonalsDrawn(r, c);
    BlocksDrawn(r, c);
    CrossesDrawn(r, c);
    LozengesDrawn(r, c);
    WeaveDrawn(r, c);
    assert Times(r, c) == r * c && c % 6 == c;
    hide Chessboard, Stripes, Columns, Diagonals, Blocks, Crosses, Lozenges, Weave, Two, Three, Times;
  }

  lemma MaskRepeats(mask: nat, q: nat, r: nat, p: nat, c: nat)
    requires mask < 8
    ensures GetMask(mask, 12 * q + r, 6 * p + c) == GetMask(mask, r, c)
  {
    var i, j := 12 * q + r, 6 * p + c;
    Remainders(q, r, p, c);
    assert Two(i, j) == Two(r, c) && Three(i, j) == Three(r, c);
    hide GetMask, Two, Three;
    SameRemainders(mask, i, j, r, c);
  }

  /** What the conditions depend on. */
  lemma SameRemainders(mask: nat, i: nat, j: nat, r: nat, c: nat)
    requires mask < 8
    requires i % 2 == r % 2 && j % 3 == c % 3 && (i + j) % 2 == (r + c) % 2 && (i + j) % 3 == (r + c) % 3
    requires (i / 2 + j / 3) % 2 == (r / 2 + c / 3) % 2
    requires Two(i, j) == Two(r, c) && Three(i, j) == Three(r, c)
    ensures GetMask(mask, i, j) == GetMask(mask, r, c)
  {
    ProductModulo(i, j);
    ProductModulo(r, c);
    assert Times(i, j) == i * j && Times(r, c) == r * c;
    hide Times, Two, Three;
  }

  lemma FlipsRepeat(mask: nat, q: nat, r: nat, p: nat, c: nat)
    requires mask < 8 && c < 6
    ensures Flips(mask, 12 * q + r, 6 * p + c) == Flips(mask, r, c)
  {
    LinesRepeat(q, r);
    MultipleOf6(p, c);
    assert c % 6 == c;
  }

  /** The conditions of the program draw the figures. */
  lemma MaskIsFigure(mask: nat, i: nat, j: nat)
    requires mask < 8
    ensures GetMask(mask, i, j) == Flips(mask, i, j)
  {
    hide *;
    var q, r, p, c := i / 12, i % 12, j / 6, j % 6;
    assert i == 12 * q + r && j == 6 * p + c;
    MaskRepeats(mask, q, r, p, c);
    FlipsRepeat(mask, q, r, p, c);
    FirstFigures(mask, r, c);
  }

  // ----- What tells the masks apart -----

  predicate ExactlyOne(a: bool, b: bool, c: bool) {
    (a || b || c) && !(a && b) && !(a && c) && !(b && c)
  }

  /** All masks flip the corner. */
  lemma CornerFlipped(mask: nat)
    requires mask < 8
    ensures GetMask(mask, 0, 0)
  {
    MaskIsFigure(mask, 0, 0);
  }

  /**
   Mask 0 changes with every step, mask 1 with every step down and with none to the right; mask 2
   flips one of any three neighbouring columns, the same in every row; mask 3 flips one of them, one
   place further left in the next row.
   */
  lemma LineMasks(i: nat, j: nat)
    ensures GetMask(0, i, j) != GetMask(0, i + 1, j) && GetMask(0, i, j) != GetMask(0, i, j + 1)
    ensures GetMask(1, i, j) != GetMask(1, i + 1, j) && GetMask(1, i, j) == GetMask(1, i, j + 1)
    ensures ExactlyOne(GetMask(2, i, j), GetMask(2, i, j + 1), GetMask(2, i, j + 2))
    ensures GetMask(2, i, j) == GetMask(2, i + 1, j)
    ensures ExactlyOne(GetMask(3, i, j), GetMask(3, i, j + 1), GetMask(3, i, j + 2))
    ensures GetMask(3, i + 1, j) == GetMask(3, i, j + 1)
  {
    OneOfTwo(i);
    OneOfTwo(i + j);
    OneOfThree(j);
    OneOfThree(i + j);
  }

  lemma OneOfTwo(n: nat)
    ensures (n % 2 == 0) != ((n + 1) % 2 == 0)
  {
  }

  lemma OneOfThree(n: nat)
    ensures ExactlyOne(n % 3 == 0, (n + 1) % 3 == 0, (n + 2) % 3 == 0)
  {
  }

  /** Mask 4 is constant on blocks of two rows and three columns and changes from block to block. */
  lemma BlockMask(a: nat, b: nat, r: nat, c: nat)
    requires r < 2 && c < 3
    ensures GetMask(4, 2 * a + r, 3 * b + c) == GetMask(4, 2 * a, 3 * b)
    ensures GetMask(4, 2 * (a + 1), 3 * b) != GetMask(4, 2 * a, 3 * b)
    ensures GetMask(4, 2 * a, 3 * (b + 1)) != GetMask(4, 2 * a, 3 * b)
  {
    OneOfTwo(a + b);
    hide GetMask;
    BlockOf(a, b, a + b, 2 * a + r, 3 * b + c);
    BlockOf(a, b, a + b, 2 * a, 3 * b);
    BlockOf(a + 1, b, a + b + 1, 2 * (a + 1), 3 * b);
    BlockOf(a, b + 1, a + b + 1, 2 * a, 3 * (b + 1));
  }

  lemma BlockOf(a: nat, b: nat, n: nat, i: nat, j: nat)
    requires n == a + b && 2 * a <= i < 2 * a + 2 && 3 * b <= j < 3 * b + 3
    ensures GetMask(4, i, j) == (n % 2 == 0)
  {
    assert i / 2 == a && j / 3 == b;
  }

  /**
   Mask 5 flips where 6 divides the product of row and column, mask 6 where the product leaves less
   than 3 modulo 6, and mask 7 where the product modulo 3 and the sum are both even or both odd.
   */
  lemma ProductMasks(i: nat, j: nat)
    ensures GetMask(5, i, j) <==> (i * j) % 6 == 0
    ensures GetMask(6, i, j) <==> (i * j) % 6 < 3
    ensures GetMask(7, i, j) <==> (i * j) % 3 % 2 == (i + j) % 2
  {
    ModuloSix(i * j);
    SameParity((i * j) % 3, (i + j) % 2);
  }

  lemma ModuloSix(n: nat)
    ensures n % 2 + n % 3 == 0 <==> n % 6 == 0
    ensures (n % 2 + n % 3) % 2 == 0 <==> n % 6 < 3
  {
    var m, x := n / 6, n % 6;
    assert n == 6 * m + x;
    Multiple(3 * m, x);
    MultipleOf3(2 * m, x);
    assert x == 0 || x == 1 || x == 2 || x == 3 || x == 4 || x == 5;
  }

  lemma SameParity(x: nat, y: nat)
    ensures (x + y) % 2 == 0 <==> x % 2 == y % 2
  {
  }
}
