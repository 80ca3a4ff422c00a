/** Block sizes per version (1 to 10) and error-correction level. */
module BlockTable {
  import opened Wrappers

  datatype Level = L | M | Q | H

  datatype RSBlock = RSBlock(totalCount: nat, dataCount: nat)

  /** RS_BLOCK_TABLE: groups of (count, total codewords, data codewords). */
  function TableRow(index: int): Option<seq<nat>> {
    match index
    case 0 => Some([1, 26, 19]) case 1 => Some([1, 26, 16]) case 2 => Some([1, 26, 13]) case 3 => Some([1, 26, 9])
    case 4 => Some([1, 44, 34]) case 5 => Some([1, 44, 28]) case 6 => Some([1, 44, 22]) case 7 => Some([1, 44, 16])
    case 8 => Some([1, 70, 55]) case 9 => Some([1, 70, 44]) case 10 => Some([2, 35, 17]) case 11 => Some([2, 35, 13])
    case 12 => Some([1, 100, 80]) case 13 => Some([2, 50, 32]) case 14 => Some([2, 50, 24]) case 15 => Some([4, 25, 9])
    case 16 => Some([1, 134, 108]) case 17 => Some([2, 67, 43])
    case 18 => Some([2, 33, 15, 2, 34, 16]) case 19 => Some([2, 33, 11, 2, 34, 12])
    case 20 => Some([2, 86, 68]) case 21 => Some([4, 43, 27]) case 22 => Some([4, 43, 19]) case 23 => Some([4, 43, 15])
    case 24 => Some([2, 98, 78]) case 25 => Some([4, 49, 31])
    case 26 => Some([2, 32, 14, 4, 33, 15]) case 27 => Some([4, 39, 13, 1, 40, 14])
    case 28 => Some([2, 121, 97]) case 29 => Some([2, 60, 38, 2, 61, 39])
    case 30 => Some([4, 40, 18, 2, 41, 19]) case 31 => Some([4, 40, 14, 2, 41, 15])
    case 32 => Some([2, 146, 116]) case 33 => Some([3, 58, 36, 2, 59, 37])
    case 34 => Some([4, 36, 16, 4, 37, 17]) case 35 => Some([4, 36, 12, 4, 37, 13])
    case 36 => Some([2, 86, 68, 2, 87, 69]) case 37 => Some([4, 69, 43, 1, 70, 44])
    case 38 => Some([6, 43, 19, 2, 44, 20]) case 39 => Some([6, 43, 15, 2, 44, 16])
    case _ => None
  }

  function LevelIndex(level: Level): int {
    match level case L => 0 case M => 1 case Q => 2 case H => 3
  }

  function GetRsBlockTable(typeNumber: int, level: Level): Option<seq<nat>> {
    TableRow((typeNumber - 1) * 4 + LevelIndex(level))
  }

  function Repeat(b: RSBlock, count: nat): seq<RSBlock> {
    seq(count, i => b)
  }

  /** The blocks a table row stands for. */
  function Expand(row: seq<nat>): seq<RSBlock> {
    if |row| < 3 then [] else Repeat(RSBlock(row[1], row[2]), row[0]) + Expand(row[3..])
  }

  method GetRSBlocks(typeNumber: int, level: Level) returns (r: Result<seq<RSBlock>>)
    ensures r == match GetRsBlockTable(typeNumber, level) { case None => Throws case Some(row) => Ok(Expand(row)) }
  {
    hide TableRow;
    var rsBlock := GetRsBlockTable(typeNumber, level);
    if rsBlock == None {
      return Throws;
    }
    var list := ExpandRow(rsBlock.value);
    r := Ok(list);
  }

  /** The outer loop over the groups of a row. */
  method ExpandRow(row: seq<nat>) returns (list: seq<RSBlock>)
    ensures list == Expand(row)
  {
    var length := |row| / 3;
    list := [];
    ghost var rest := row;
    ExpandShort(row);
    hide Expand, Repeat;
    for i := 0 to length
      invariant |rest| == |row| - 3 * i
      invariant forall k :: 0 <= k < |rest| ==> rest[k] == row[3 * i + k]
      invariant Expand(row) == list + Expand(rest)
    {
      var count, total, data := row[i * 3 + 0], row[i * 3 + 1], row[i * 3 + 2];
      assert count == rest[0] && total == rest[1] && data == rest[2];
      ExpandStep(rest);
      list := PushBlocks(list, RSBlock(total, data), count);
      rest := rest[3..];
    }
    ExpandShort(rest);
  }

  lemma ExpandStep(row: seq<nat>)
    requires |row| >= 3
    ensures Expand(row) == Repeat(RSBlock(row[1], row[2]), row[0]) + Expand(row[3..])
  {
  }

  lemma ExpandShort(row: seq<nat>)
    ensures |row| < 3 ==> Expand(row) == []
  {
  }

  /** The inner loop: `count` copies of one block. */
  method PushBlocks(list: seq<RSBlock>, block: RSBlock, count: nat) returns (r: seq<RSBlock>)
    ensures r == list + Repeat(block, count)
  {
    r := list;
    for j := 0 to count
      invariant r == list + Repeat(block, j)
    {
      assert Repeat(block, j + 1) == Repeat(block, j) + [block];
      r := r + [block];
    }
  }

  function TotalData(blocks: seq<RSBlock>): nat {
    if blocks == [] then 0 else TotalData(blocks[..|blocks| - 1]) + blocks[|blocks| - 1].dataCount
  }

  function TotalCode(blocks: seq<RSBlock>): nat {
    if blocks == [] then 0 else TotalCode(blocks[..|blocks| - 1]) + blocks[|blocks| - 1].totalCount
  }

  // ----- Facts about the table -----

  lemma {:induction false} TotalsOfConcat(a: seq<RSBlock>, b: seq<RSBlock>)
    ensures TotalData(a + b) == TotalData(a) + TotalData(b)
    ensures TotalCode(a + b) == TotalCode(a) + TotalCode(b)
    decreases |b|
  {
    if b == [] {
      assert a + b == a;
    } else {
      TotalsOfConcat(a, b[..|b| - 1]);
      assert (a + b)[..|a + b| - 1] == a + b[..|b| - 1];
    }
  }

  lemma {:induction false} TotalsOfRepeat(b: RSBlock, count: nat)
    ensures TotalData(Repeat(b, count)) == count * b.dataCount
    ensures TotalCode(Repeat(b, count)) == count * b.totalCount
  {
    if count > 0 {
      TotalsOfRepeat(b, count - 1);
      assert Repeat(b, count)[..count - 1] == Repeat(b, count - 1);
    }
  }

  function RowData(row: seq<nat>): nat {
    if |row| < 3 then 0 else row[0] * row[2] + RowData(row[3..])
  }

  function RowCode(row: seq<nat>): nat {
    if |row| < 3 then 0 else row[0] * row[1] + RowCode(row[3..])
  }

  lemma {:induction false} TotalsOfRow(row: seq<nat>)
    ensures TotalData(Expand(row)) == RowData(row)
    ensures TotalCode(Expand(row)) == RowCode(row)
  {
    if |row| >= 3 {
      TotalsOfRow(row[3..]);
      TotalsOfRepeat(RSBlock(row[1], row[2]), row[0]);
      TotalsOfConcat(Repeat(RSBlock(row[1], row[2]), row[0]), Expand(row[3..]));
    }
  }

  /** Every block has between 1 and 30 error-correction codewords and at most 255 codewords in all. */
  predicate GoodBlocks(blocks: seq<RSBlock>) {
    forall i :: 0 <= i < |blocks| ==>
      1 <= (blocks[i].totalCount as int) - blocks[i].dataCount <= 30 && blocks[i].totalCount <= 255
  }

  predicate GoodGroup(total: nat, data: nat) {
    data < total <= data + 30 && total <= 255
  }

  predicate GoodRow(row: seq<nat>) {
    |row| < 3 || (GoodGroup(row[1], row[2]) && GoodRow(row[3..]))
  }

  lemma {:induction false} GoodRowBlocks(row: seq<nat>)
    requires GoodRow(row)
    ensures GoodBlocks(Expand(row))
  {
    if |row| >= 3 {
      GoodRowBlocks(row[3..]);
    }
  }

  /** Codewords in a symbol of the given version. */
  function Capacity(typeNumber: int): int {
    match typeNumber
    case 1 => 26 case 2 => 44 case 3 => 70 case 4 => 100 case 5 => 134
    case 6 => 172 case 7 => 196 case 8 => 242 case 9 => 292 case _ => 346
  }

  lemma {:induction false} RowTotals(row: seq<nat>)
    ensures |row| == 3 ==> RowData(row) == row[0] * row[2] && RowCode(row) == row[0] * row[1]
                           && (GoodRow(row) <==> GoodGroup(row[1], row[2]))
    ensures |row| == 6 ==> RowData(row) == row[0] * row[2] + row[3] * row[5]
                           && RowCode(row) == row[0] * row[1] + row[3] * row[4]
                           && (GoodRow(row) <==> GoodGroup(row[1], row[2]) && GoodGroup(row[4], row[5]))
  {
    if |row| == 6 {
      assert row[3..][0] == row[3] && row[3..][1] == row[4] && row[3..][2] == row[5];
      RowTotals(row[3..]);
    }
  }

  /** Error-correction codewords per block in the standard (section 7.5.1, table 9). */
  function EcPerBlock(version: nat, level: Level): nat
    requires 1 <= version <= 10
  {
    match level
    case L => [7, 10, 15, 20, 26, 18, 20, 24, 30, 18][version - 1]
    case M => [10, 16, 26, 18, 24, 16, 18, 22, 22, 26][version - 1]
    case Q => [13, 22, 18, 26, 18, 24, 18, 22, 20, 24][version - 1]
    case H => [17, 28, 22, 16, 22, 28, 26, 26, 24, 28][version - 1]
  }

  /** Number of blocks in the same table. */
  function BlockCount(version: nat, level: Level): (n: nat)
    requires 1 <= version <= 10
    ensures n > 0
  {
    match level
    case L => [1, 1, 1, 1, 1, 2, 2, 2, 2, 4][version - 1]
    case M => [1, 1, 1, 2, 2, 4, 4, 4, 5, 5][version - 1]
    case Q => [1, 1, 2, 2, 4, 4, 6, 6, 8, 8][version - 1]
    case H => [1, 1, 2, 4, 4, 4, 5, 6, 8, 8][version - 1]
  }

  /** The facts about one row, for rows of one or two groups. */
  predicate RowShape(row: seq<nat>, code: int, data: int) {
    || (|row| == 3 && GoodGroup(row[1], row[2]) && row[0] * row[1] == code && row[0] * row[2] <= data)
    || (|row| == 6 && GoodGroup(row[1], row[2]) && GoodGroup(row[4], row[5])
        && row[0] * row[1] + row[3] * row[4] == code && row[0] * row[2] + row[3] * row[5] <= data)
  }

  /** So many blocks with so many error-correction codewords each; those of the second group are one longer. */
  predicate RowEven(row: seq<nat>, count: nat, ec: nat) {
    || (|row| == 3 && row[0] == count && row[1] == row[2] + ec)
    || (|row| == 6 && row[0] + row[3] == count && row[1] == row[2] + ec && row[4] == row[1] + 1 && row[5] == row[2] + 1)
  }

  predicate GoodIndex(index: int, version: nat, level: Level)
    requires 1 <= version <= 10
  {
    var row := TableRow(index);
    && row.Some?
    && RowShape(row.value, Capacity(version), if version < 10 then 232 else 274)
    && RowEven(row.value, BlockCount(version, level), EcPerBlock(version, level))
  }

  lemma Version1()
    ensures GoodIndex(0, 1, L) && GoodIndex(1, 1, M)
    ensures GoodIndex(2, 1, Q) && GoodIndex(3, 1, H)
  {
  }

  lemma Version2()
    ensures GoodIndex(4, 2, L) && GoodIndex(5, 2, M)
    ensures GoodIndex(6, 2, Q) && GoodIndex(7, 2, H)
  {
  }

  lemma Version3()
    ensures GoodIndex(8, 3, L) && GoodIndex(9, 3, M)
    ensures GoodIndex(10, 3, Q) && GoodIndex(11, 3, H)
  {
  }

  lemma Version4()
    ensures GoodIndex(12, 4, L) && GoodIndex(13, 4, M)
    ensures GoodIndex(14, 4, Q) && GoodIndex(15, 4, H)
  {
  }

  lemma Version5()
    ensures GoodIndex(16, 5, L) && GoodIndex(17, 5, M)
    ensures GoodIndex(18, 5, Q) && GoodIndex(19, 5, H)
  {
  }

  lemma Version6()
    ensures GoodIndex(20, 6, L) && GoodIndex(21, 6, M)
    ensures GoodIndex(22, 6, Q) && GoodIndex(23, 6, H)
  {
  }

  lemma Version7()
    ensures GoodIndex(24, 7, L) && GoodIndex(25, 7, M)
    ensures GoodIndex(26, 7, Q) && GoodIndex(27, 7, H)
  {
  }

  lemma Version8()
    ensures GoodIndex(28, 8, L) && GoodIndex(29, 8, M)
    ensures GoodIndex(30, 8, Q) && GoodIndex(31, 8, H)
  {
  }

  lemma Version9()
    ensures GoodIndex(32, 9, L) && GoodIndex(33, 9, M)
    ensures GoodIndex(34, 9, Q) && GoodIndex(35, 9, H)
  {
  }

  lemma Version10()
    ensures GoodIndex(36, 10, L) && GoodIndex(37, 10, M)
    ensures GoodIndex(38, 10, Q) && GoodIndex(39, 10, H)
  {
  }

  lemma TableFacts(typeNumber: int, level: Level)
    requires 1 <= typeNumber <= 10
    ensures GoodIndex((typeNumber - 1) * 4 + LevelIndex(level), typeNumber, level)
  {
    Version1();
    Version2();
    Version3();
    Version4();
    Version5();
    Version6();
    Version7();
    Version8();
    Version9();
    Version10();
    hide TableRow, RowShape, RowEven, Capacity, GoodIndex;
    assert typeNumber == 1 || typeNumber == 2 || typeNumber == 3 || typeNumber == 4 || typeNumber == 5
           || typeNumber == 6 || typeNumber == 7 || typeNumber == 8 || typeNumber == 9 || typeNumber == 10;
  }

  /** The blocks of a row, one by one. */
  lemma RowBlocks(row: seq<nat>)
    ensures |row| == 3 ==> Expand(row) == Repeat(RSBlock(row[1], row[2]), row[0])
    ensures |row| == 6 ==> Expand(row) == Repeat(RSBlock(row[1], row[2]), row[0])
                                          + Repeat(RSBlock(row[4], row[5]), row[3])
  {
    hide Repeat;
    if |row| == 6 {
      assert row[3..][0] == row[3] && row[3..][1] == row[4] && row[3..][2] == row[5] && row[3..][3..] == [];
    }
  }

  /** As many blocks with as many error-correction codewords each, the longer ones, by one codeword, last. */
  predicate EvenBlocks(blocks: seq<RSBlock>, count: nat, ec: nat) {
    && |blocks| == count
    && (forall r :: 0 <= r < count ==> blocks[r].totalCount == blocks[r].dataCount + ec)
    && (forall r, q :: 0 <= r <= q < count ==>
          blocks[r].totalCount <= blocks[q].totalCount <= blocks[r].totalCount + 1)
  }

  lemma RowIsEven(row: seq<nat>, count: nat, ec: nat)
    requires RowEven(row, count, ec)
    ensures EvenBlocks(Expand(row), count, ec)
  {
    RowBlocks(row);
    hide Expand;
  }

  /**
   The program's table is that of the standard: number of blocks and error-correction codewords per
   block, with the codewords of the symbol spread over the blocks as evenly as they go.
   */
  lemma TableIsStandard(version: nat, level: Level)
    requires 1 <= version <= 10
    ensures GetRsBlockTable(version, level).Some?
    ensures var blocks := Expand(GetRsBlockTable(version, level).value);
            EvenBlocks(blocks, BlockCount(version, level), EcPerBlock(version, level))
            && TotalCode(blocks) == Capacity(version)
  {
    BlocksFacts(version, level);
    TableFacts(version, level);
    hide TableRow, Capacity, RowShape, RowEven, EvenBlocks, Expand, BlockCount, EcPerBlock, TotalCode;
    RowIsEven(GetRsBlockTable(version, level).value, BlockCount(version, level), EcPerBlock(version, level));
  }

  /** For every supported version and level: the block list exists, fills the symbol, and leaves room to count bytes. */
  lemma BlocksFacts(typeNumber: int, level: Level)
    requires 1 <= typeNumber <= 10
    ensures GetRsBlockTable(typeNumber, level).Some?
    ensures var blocks := Expand(GetRsBlockTable(typeNumber, level).value);
            && GoodBlocks(blocks)
            && TotalCode(blocks) == Capacity(typeNumber)
            && TotalData(blocks) <= (if typeNumber < 10 then 232 else 274)
  {
    TableFacts(typeNumber, level);
    hide TableRow, Capacity, BlockCount, EcPerBlock, Expand, TotalCode, TotalData, RowCode, RowData, GoodRow;
    hide GoodBlocks;
    var row := GetRsBlockTable(typeNumber, level).value;
    RowTotals(row);
    TotalsOfRow(row);
    GoodRowBlocks(row);
  }
}
