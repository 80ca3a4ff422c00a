/**
 Where the codeword bits go: the two-column zigzag over the free modules, masked on the way, and
 the reader that walks the same path.
 */
module Placement {
  import opened Wrappers
  import opened BitBuffer
  import opened Masks

  /** A module is undecided (None), light or dark. */
  type Grid = seq<seq<Option<bool>>>

  type Cell = (int, int)

  ghost predicate Square(g: Grid, n: nat) {
    |g| == n && forall r :: 0 <= r < n ==> |g[r]| == n
  }

  predicate InRange(n: nat, cell: Cell) {
    0 <= cell.0 < n && 0 <= cell.1 < n
  }

  ghost predicate AllIn(n: nat, cells: seq<Cell>) {
    forall i :: 0 <= i < |cells| ==> InRange(n, cells[i])
  }

  function At(g: Grid, cell: Cell): Option<bool>
    requires 0 <= cell.0 < |g| && 0 <= cell.1 < |g[cell.0]|
  {
    g[cell.0][cell.1]
  }

  function Set(g: Grid, cell: Cell, v: bool): Grid
    requires 0 <= cell.0 < |g| && 0 <= cell.1 < |g[cell.0]|
  {
    g[cell.0 := g[cell.0][cell.1 := Some(v)]]
  }

  // ----- The path -----

  /** The row visited at step t of a column pair. */
  function Row(n: nat, up: bool, t: nat): int {
    if up then n - 1 - t else t
  }

  /** A pair of columns from step t on, right column first. */
  function PairFrom(n: nat, col: int, up: bool, t: nat): seq<Cell>
    decreases n - t
  {
    if t >= n then []
    else [(Row(n, up, t), col), (Row(n, up, t), col - 1)] + PairFrom(n, col, up, t + 1)
  }

  /** Column 6 is skipped. */
  function Skip6(col: int): int {
    if col == 6 then 5 else col
  }

  /** The column pairs from col leftwards. */
  function ZigzagFrom(n: nat, col: int, up: bool): seq<Cell>
    decreases col
  {
    if col <= 0 then []
    else PairFrom(n, Skip6(col), up, 0) + ZigzagFrom(n, Skip6(col) - 2, !up)
  }

  function Zigzag(n: nat): seq<Cell> {
    ZigzagFrom(n, n - 1, true)
  }

  /** The right column of the pair visited after t others; the pairs lie left of column 6 from then on. */
  function RightColumn(n: nat, t: nat): int {
    if n - 1 - 2 * t > 6 then n - 1 - 2 * t else n - 2 - 2 * t
  }

  lemma {:induction false} PairAt(n: nat, col: int, up: bool, t: nat, k: nat, c: nat)
    requires t + k < n && c < 2
    ensures |PairFrom(n, col, up, t)| == 2 * (n - t)
    ensures PairFrom(n, col, up, t)[2 * k + c] == (if up then n - 1 - (t + k) else t + k, col - c)
    decreases n - t
  {
    if t + 1 < n {
      PairAt(n, col, up, t + 1, if k == 0 then 0 else k - 1, c);
    }
  }

  /** Steps before pair t. */
  function PairStart(n: nat, t: nat): nat {
    if t == 0 then 0 else PairStart(n, t - 1) + 2 * n
  }

  lemma {:induction false} PairStartIs(n: nat, t: nat)
    ensures PairStart(n, t) == 2 * n * t
  {
    if t > 0 {
      PairStartIs(n, t - 1);
      assert 2 * n * (t - 1) + 2 * n == 2 * n * t;
    }
  }

  /** The pairs from pair t on. */
  function PairsFrom(n: nat, t: nat): seq<Cell> {
    ZigzagFrom(n, RightColumn(n, t), t % 2 == 0)
  }

  lemma PairsSplit(n: nat, t: nat)
    requires n % 2 == 1 && n >= 9 && t < (n - 1) / 2
    ensures PairsFrom(n, t) == PairFrom(n, RightColumn(n, t), t % 2 == 0, 0)
                               + if t + 1 < (n - 1) / 2 then PairsFrom(n, t + 1) else []
  {
    hide PairFrom;
    NextColumn(n, t);
    OtherWay(t);
    var col := RightColumn(n, t);
    hide RightColumn;
    assert Skip6(col) == col > 0;
    Enter6(n, col - 2, (t + 1) % 2 == 0);
    if t + 1 >= (n - 1) / 2 {
      assert ZigzagFrom(n, col - 2, t % 2 != 0) == [];
    }
  }

  lemma OtherWay(t: nat)
    ensures (t % 2 != 0) == ((t + 1) % 2 == 0)
  {
  }

  /** The next pair lies two columns further left, or three where column 6 is in between. */
  lemma NextColumn(n: nat, t: nat)
    requires n % 2 == 1 && n >= 9 && t < (n - 1) / 2
    ensures var col := RightColumn(n, t);
            && col > 0 && col != 6
            && (t + 1 < (n - 1) / 2 ==> RightColumn(n, t + 1) == Skip6(col - 2) && col > 2)
            && (t + 1 >= (n - 1) / 2 ==> col == 1)
  {
  }

  /** Entering the pairs with column 6 as the right column is entering them with column 5. */
  lemma Enter6(n: nat, col: int, up: bool)
    ensures col > 0 ==> ZigzagFrom(n, col, up) == ZigzagFrom(n, Skip6(col), up)
  {
  }

  lemma {:induction false} PairsAt(n: nat, h: nat, t0: nat, t: nat, k: nat, c: nat)
    requires n == 2 * h + 1 && h >= 4 && t0 + t < h && k < n && c < 2
    ensures PairStart(n, t) + 2 * k + c < |PairsFrom(n, t0)|
    ensures PairsFrom(n, t0)[PairStart(n, t) + 2 * k + c]
            == (if (t0 + t) % 2 == 0 then n - 1 - k else k, RightColumn(n, t0 + t) - c)
    decreases t
  {
    hide PairFrom, PairsFrom, RightColumn;
    assert (n - 1) / 2 == h && n % 2 == 1;
    PairsSplit(n, t0);
    var first := PairFrom(n, RightColumn(n, t0), t0 % 2 == 0, 0);
    if t == 0 {
      PairAt(n, RightColumn(n, t0), t0 % 2 == 0, 0, k, c);
    } else {
      PairAt(n, RightColumn(n, t0), t0 % 2 == 0, 0, 0, 0);
      PairsAt(n, h, t0 + 1, t - 1, k, c);
      LaterPair(first, PairsFrom(n, t0 + 1), PairStart(n, t - 1) + 2 * k + c);
    }
  }

  lemma LaterPair(first: seq<Cell>, rest: seq<Cell>, m: nat)
    requires m < |rest|
    ensures (first + rest)[|first| + m] == rest[m]
  {
  }

  /**
   Where the path is at each step (section 7.7.3): pairs of columns from the right, the first upwards
   and then down and up by turns, the right module before the left, and column 6 left out.
   */
  lemma ZigzagAt(n: nat, t: nat, k: nat, c: nat)
    requires n % 2 == 1 && n >= 9 && t < (n - 1) / 2 && k < n && c < 2
    ensures 2 * n * t + 2 * k + c < |Zigzag(n)|
    ensures Zigzag(n)[2 * n * t + 2 * k + c] == (if t % 2 == 0 then n - 1 - k else k, RightColumn(n, t) - c)
  {
    PairStartIs(n, t);
    PairsAt(n, (n - 1) / 2, 0, t, k, c);
    assert Zigzag(n) == PairsFrom(n, 0);
    hide PairStart, ZigzagFrom, PairsFrom;
  }

  // ----- Data bits -----

  /** Bit k of the codewords; 0 beyond their end. */
  predicate DataBit(data: seq<bv8>, k: nat) {
    k / 8 < |data| && BitAt(data[k / 8], k % 8)
  }

  /** The free modules among the cells are filled in order, starting with data bit k. */
  ghost function Placed(g: Grid, n: nat, cells: seq<Cell>, data: seq<bv8>, k: nat, mask: nat): (r: Grid)
    requires Square(g, n) && mask < 8 && AllIn(n, cells)
    ensures Square(r, n)
    decreases |cells|
  {
    if cells == [] then g
    else
      var x := cells[0];
      if At(g, x) == None then
        Placed(Set(g, x, DataBit(data, k) != Flips(mask, x.0, x.1)), n, cells[1..], data, k + 1, mask)
      else Placed(g, n, cells[1..], data, k, mask)
  }

  // ----- The loop -----

  function Snapshot(m: array2<Option<bool>>): (g: Grid)
    requires m.Length0 == m.Length1
    reads m
    ensures Square(g, m.Length0)
    ensures forall r, c :: 0 <= r < m.Length0 && 0 <= c < m.Length0 ==> g[r][c] == m[r, c]
  {
    seq(m.Length0, r requires 0 <= r < m.Length0 reads m =>
      seq(m.Length1, c requires 0 <= c < m.Length1 reads m => m[r, c]))
  }

  method Write(m: array2<Option<bool>>, row: int, col: int, v: bool)
    requires m.Length0 == m.Length1 && InRange(m.Length0, (row, col))
    modifies m
    ensures Snapshot(m) == Set(old(Snapshot(m)), (row, col), v)
  {
    m[row, col] := Some(v);
    ghost var after := Set(old(Snapshot(m)), (row, col), v);
    forall r | 0 <= r < m.Length0 ensures Snapshot(m)[r] == after[r] {
      assert forall c :: 0 <= c < m.Length0 ==> Snapshot(m)[r][c] == after[r][c];
    }
  }

  /** One cell of the inner loop: fills it if it is free and advances the bit position. */
  method VisitCell(m: array2<Option<bool>>, row: int, col: int, data: seq<bv8>, maskPattern: nat,
                   byteIndex: nat, bitIndex: int) returns (byteIndex': nat, bitIndex': int)
    requires m.Length0 == m.Length1 && InRange(m.Length0, (row, col))
    requires maskPattern < 8 && 0 <= bitIndex <= 7
    modifies m
    ensures 0 <= bitIndex' <= 7
    ensures old(m[row, col]) == None ==>
              8 * byteIndex' + 7 - bitIndex' == 8 * byteIndex + 7 - bitIndex + 1
              && Snapshot(m) == Set(old(Snapshot(m)), (row, col),
                                    DataBit(data, 8 * byteIndex + 7 - bitIndex) != Flips(maskPattern, row, col))
    ensures old(m[row, col]) != None ==>
              byteIndex' == byteIndex && bitIndex' == bitIndex && Snapshot(m) == old(Snapshot(m))
  {
    hide Flips, GetMask;
    byteIndex', bitIndex' := byteIndex, bitIndex;
    if m[row, col] == None {
      var dark := false;
      if byteIndex < |data| {
        BitAtShift(data[byteIndex], bitIndex);
        dark := (data[byteIndex] >> bitIndex) & 1 == 1;
      }
      assert dark == DataBit(data, 8 * byteIndex + 7 - bitIndex);
      MaskIsFigure(maskPattern, row, col);
      var mask := GetMask(maskPattern, row, col);
      if mask {
        dark := !dark;
      }
      Write(m, row, col, dark);
      bitIndex' := bitIndex' - 1;
      if bitIndex' == -1 {
        byteIndex' := byteIndex' + 1;
        bitIndex' := 7;
      }
    }
  }

  lemma BitAtShift(b: bv8, i: nat)
    requires i <= 7
    ensures BitAt(b, 7 - i) == ((b >> i) & 1 == 1)
  {
  }

  lemma {:induction false} PairInRange(n: nat, col: int, up: bool, t: nat)
    requires 1 <= col < n
    ensures AllIn(n, PairFrom(n, col, up, t))
    decreases n - t
  {
    if t < n {
      PairInRange(n, col, up, t + 1);
    }
  }

  lemma {:induction false} ZigzagInRange(n: nat, col: int, up: bool)
    requires col < n
    ensures AllIn(n, ZigzagFrom(n, col, up))
    decreases col
  {
    if col > 0 {
      PairInRange(n, Skip6(col), up, 0);
      ZigzagInRange(n, Skip6(col) - 2, !up);
    }
  }

  /** Filling the first cell of a path. */
  lemma PlacedStep(g: Grid, n: nat, x: Cell, rest: seq<Cell>, data: seq<bv8>, k: nat, mask: nat)
    requires Square(g, n) && mask < 8 && InRange(n, x) && AllIn(n, rest)
    ensures AllIn(n, [x] + rest)
    ensures Placed(g, n, [x] + rest, data, k, mask)
            == if At(g, x) == None
               then Placed(Set(g, x, DataBit(data, k) != Flips(mask, x.0, x.1)), n, rest, data, k + 1, mask)
               else Placed(g, n, rest, data, k, mask)
  {
  }

  /** Fills every free module on the zigzag, in order, and nothing else. */
  method MapData(m: array2<Option<bool>>, data: seq<bv8>, maskPattern: nat)
    requires m.Length0 == m.Length1 && maskPattern < 8
    modifies m
    ensures AllIn(m.Length0, Zigzag(m.Length0))
    ensures Snapshot(m) == Placed(old(Snapshot(m)), m.Length0, Zigzag(m.Length0), data, 0, maskPattern)
  {
    hide Flips, DataBit, Placed, PairFrom, Set, At;
    var n := m.Length0;
    ghost var goal := Snapshot(m);
    ZigzagInRange(n, n - 1, true);
    var inc := -1;
    var row := n - 1;
    var bitIndex, byteIndex := 7, 0;
    var col := n - 1;
    while col > 0
      invariant col < n
      invariant inc == -1 || inc == 1
      invariant col > 0 ==> row == Row(n, inc == -1, 0)
      invariant 0 <= bitIndex <= 7 && byteIndex >= 0
      invariant AllIn(n, ZigzagFrom(n, col, inc == -1))
      invariant Placed(goal, n, Zigzag(n), data, 0, maskPattern)
                == Placed(Snapshot(m), n, ZigzagFrom(n, col, inc == -1), data,
                          8 * byteIndex + 7 - bitIndex, maskPattern)
      decreases col
    {
      ghost var up := inc == -1;
      ZigzagStep(n, col, up);
      if col == 6 {
        col := col - 1;
      }
      row, byteIndex, bitIndex := MapPair(m, data, maskPattern, col, inc, row, byteIndex, bitIndex);
      inc := -inc;
      col := col - 2;
    }
    ZigzagStep(n, col, inc == -1);
    PlacedEnd(Snapshot(m), n, data, 8 * byteIndex + 7 - bitIndex, maskPattern);
  }

  lemma ZigzagStep(n: nat, col: int, up: bool)
    requires col < n
    ensures col <= 0 ==> ZigzagFrom(n, col, up) == []
    ensures col > 0 ==> ZigzagFrom(n, col, up) == PairFrom(n, Skip6(col), up, 0) + ZigzagFrom(n, Skip6(col) - 2, !up)
    ensures AllIn(n, ZigzagFrom(n, Skip6(col) - 2, !up))
  {
    hide PairFrom;
    ZigzagInRange(n, Skip6(col) - 2, !up);
  }

  lemma PlacedEnd(g: Grid, n: nat, data: seq<bv8>, k: nat, mask: nat)
    requires Square(g, n) && mask < 8
    ensures Placed(g, n, [], data, k, mask) == g
  {
  }

  /** The loop over the two modules of one row. `next` is the path after them. */
  method VisitRow(m: array2<Option<bool>>, data: seq<bv8>, maskPattern: nat, row: int, col: int,
                  byteIndex: nat, bitIndex: int, ghost next: seq<Cell>) returns (byteIndex': nat, bitIndex': int)
    requires m.Length0 == m.Length1 && maskPattern < 8
    requires 1 <= col < m.Length0 && 0 <= row < m.Length0 && 0 <= bitIndex <= 7
    requires AllIn(m.Length0, next)
    modifies m
    ensures 0 <= bitIndex' <= 7
    ensures AllIn(m.Length0, [(row, col), (row, col - 1)] + next)
    ensures Placed(old(Snapshot(m)), m.Length0, [(row, col), (row, col - 1)] + next,
                   data, 8 * byteIndex + 7 - bitIndex, maskPattern)
            == Placed(Snapshot(m), m.Length0, next, data, 8 * byteIndex' + 7 - bitIndex', maskPattern)
  {
    hide Flips, DataBit, Placed, Set;
    ghost var n := m.Length0;
    ghost var path := [(row, col), (row, col - 1)];
    byteIndex', bitIndex' := byteIndex, bitIndex;
    for c := 0 to 2
      invariant 0 <= bitIndex' <= 7
      invariant Placed(old(Snapshot(m)), n, path + next, data, 8 * byteIndex + 7 - bitIndex, maskPattern)
                == Placed(Snapshot(m), n, path[c..] + next, data, 8 * byteIndex' + 7 - bitIndex', maskPattern)
    {
      assert path[c..] + next == [(row, col - c)] + (path[c + 1..] + next);
      PlacedStep(Snapshot(m), n, (row, col - c), path[c + 1..] + next, data,
                 8 * byteIndex' + 7 - bitIndex', maskPattern);
      byteIndex', bitIndex' := VisitCell(m, row, col - c, data, maskPattern, byteIndex', bitIndex');
    }
    assert path[2..] + next == next;
  }

  /** The `while (true)` loop over the rows of one column pair. */
  method MapPair(m: array2<Option<bool>>, data: seq<bv8>, maskPattern: nat, col: int, inc: int, row: int,
                 byteIndex: nat, bitIndex: int) returns (row': int, byteIndex': nat, bitIndex': int)
    requires m.Length0 == m.Length1 && maskPattern < 8 && 1 <= col < m.Length0
    requires inc == -1 || inc == 1
    requires row == Row(m.Length0, inc == -1, 0)
    requires 0 <= bitIndex <= 7
    requires AllIn(m.Length0, ZigzagFrom(m.Length0, col - 2, inc != -1))
    modifies m
    ensures 0 <= bitIndex' <= 7
    ensures row' == Row(m.Length0, inc != -1, 0)
    ensures AllIn(m.Length0, PairFrom(m.Length0, col, inc == -1, 0) + ZigzagFrom(m.Length0, col - 2, inc != -1))
    ensures Placed(old(Snapshot(m)), m.Length0,
                   PairFrom(m.Length0, col, inc == -1, 0) + ZigzagFrom(m.Length0, col - 2, inc != -1),
                   data, 8 * byteIndex + 7 - bitIndex, maskPattern)
            == Placed(Snapshot(m), m.Length0, ZigzagFrom(m.Length0, col - 2, inc != -1),
                      data, 8 * byteIndex' + 7 - bitIndex', maskPattern)
  {
    hide Flips, DataBit, Placed, Set, ZigzagFrom;
    var n := m.Length0;
    ghost var up := inc == -1;
    ghost var rest := ZigzagFrom(n, col - 2, inc != -1);
    ghost var t := 0;
    row', byteIndex', bitIndex' := row, byteIndex, bitIndex;
    PairInRange(n, col, up, 0);
    while true
      invariant 0 <= t < n && row' == Row(n, up, t)
      invariant 0 <= bitIndex' <= 7
      invariant AllIn(n, PairFrom(n, col, up, t))
      invariant Placed(old(Snapshot(m)), n, PairFrom(n, col, up, 0) + rest, data,
                       8 * byteIndex + 7 - bitIndex, maskPattern)
                == Placed(Snapshot(m), n, PairFrom(n, col, up, t) + rest, data,
                          8 * byteIndex' + 7 - bitIndex', maskPattern)
      decreases n - t
    {
      PairInRange(n, col, up, t + 1);
      ghost var next := PairFrom(n, col, up, t + 1) + rest;
      assert PairFrom(n, col, up, t) + rest == [(row', col), (row', col - 1)] + next;
      byteIndex', bitIndex' := VisitRow(m, data, maskPattern, row', col, byteIndex', bitIndex', next);
      row' := row' + inc;
      t := t + 1;
      if row' < 0 || n <= row' {
        row' := row' - inc;
        assert PairFrom(n, col, up, t) + rest == rest;
        break;
      }
    }
  }

  // ----- What the path covers -----

  ghost predicate NoDup(cells: seq<Cell>) {
    forall i, j :: 0 <= i < j < |cells| ==> cells[i] != cells[j]
  }

  lemma {:induction false} PairCells(n: nat, col: int, up: bool, t: nat)
    ensures NoDup(PairFrom(n, col, up, t))
    ensures forall x :: x in PairFrom(n, col, up, t) ==>
              (x.1 == col || x.1 == col - 1) && exists s :: t <= s < n && x.0 == Row(n, up, s)
    decreases n - t
  {
    if t < n {
      PairCells(n, col, up, t + 1);
      var x, y, rest := (Row(n, up, t), col), (Row(n, up, t), col - 1), PairFrom(n, col, up, t + 1);
      assert PairFrom(n, col, up, t) == [x, y] + rest;
      assert x !in rest && y !in rest;
      assert forall i :: 0 <= i < |rest| ==> rest[i] in rest;
    }
  }

  lemma {:induction false} PairCovers(n: nat, col: int, up: bool, t: nat, s: nat)
    requires t <= s < n
    ensures (Row(n, up, s), col) in PairFrom(n, col, up, t)
    ensures (Row(n, up, s), col - 1) in PairFrom(n, col, up, t)
    decreases n - t
  {
    var x, y, rest := (Row(n, up, t), col), (Row(n, up, t), col - 1), PairFrom(n, col, up, t + 1);
    assert PairFrom(n, col, up, t) == [x, y] + rest;
    assert ([x, y] + rest)[0] == x && ([x, y] + rest)[1] == y;
    if s > t {
      PairCovers(n, col, up, t + 1, s);
    }
  }

  lemma {:induction false} ZigzagCells(n: nat, col: int, up: bool)
    ensures NoDup(ZigzagFrom(n, col, up))
    ensures forall x :: x in ZigzagFrom(n, col, up) ==> 0 <= x.1 <= Skip6(col)
    ensures col % 2 == 0 || col <= 5 ==> forall x :: x in ZigzagFrom(n, col, up) ==> x.1 != 6
    decreases col
  {
    hide PairFrom;
    if col > 0 {
      var c := Skip6(col);
      var pair, rest := PairFrom(n, c, up, 0), ZigzagFrom(n, c - 2, !up);
      PairCells(n, c, up, 0);
      ZigzagCells(n, c - 2, !up);
      assert forall x :: x in pair ==> c - 1 <= x.1;
      assert forall x :: x in rest ==> x.1 <= c - 2;
      assert forall i :: 0 <= i < |pair| ==> pair[i] in pair;
      assert forall i :: 0 <= i < |rest| ==> rest[i] in rest;
    }
  }

  lemma {:induction false} ZigzagCovers(n: nat, col: int, up: bool, x: Cell)
    requires InRange(n, x) && x.1 <= col && x.1 != 6
    requires col % 2 == 1 || col >= 6
    ensures x in ZigzagFrom(n, col, up)
    decreases col
  {
    hide PairFrom;
    var c := Skip6(col);
    if x.1 >= c - 1 {
      var s := if up then n - 1 - x.0 else x.0;
      PairCovers(n, c, up, 0, s);
    } else {
      ZigzagCovers(n, c - 2, !up, x);
    }
  }

  /** For odd n the zigzag visits every cell outside column 6 exactly once, and no cell of column 6. */
  lemma ZigzagPath(n: nat)
    requires n % 2 == 1 && n >= 7
    ensures NoDup(Zigzag(n)) && AllIn(n, Zigzag(n))
    ensures forall x :: InRange(n, x) ==> (x in Zigzag(n) <==> x.1 != 6)
  {
    hide ZigzagFrom;
    ZigzagCells(n, n - 1, true);
    ZigzagInRange(n, n - 1, true);
    forall x: Cell | InRange(n, x) && x.1 != 6 ensures x in Zigzag(n) {
      ZigzagCovers(n, n - 1, true, x);
    }
  }

  // ----- Reading back -----

  /** The unmasked bits of the modules that were free, in path order. */
  ghost function ReadBack(before: Grid, after: Grid, n: nat, cells: seq<Cell>, mask: nat): seq<bool>
    requires Square(before, n) && Square(after, n) && AllIn(n, cells) && mask < 8
  {
    if cells == [] then []
    else
      var x, rest := cells[0], ReadBack(before, after, n, cells[1..], mask);
      if At(before, x) == None then [(At(after, x) == Some(true)) != Flips(mask, x.0, x.1)] + rest else rest
  }

  ghost function FreeCount(g: Grid, n: nat, cells: seq<Cell>): nat
    requires Square(g, n) && AllIn(n, cells)
  {
    if cells == [] then 0 else (if At(g, cells[0]) == None then 1 else 0) + FreeCount(g, n, cells[1..])
  }

  /** Codeword bits from position k on, zero-filled. */
  function DataBits(data: seq<bv8>, k: nat, count: nat): (r: seq<bool>)
    ensures |r| == count
  {
    seq(count, i requires 0 <= i < count => DataBit(data, k + i))
  }

  /** A module that is decided, or off the path, keeps its value; one on the path ends decided. */
  lemma {:induction false} PlacedFrame(g: Grid, n: nat, cells: seq<Cell>, data: seq<bv8>, k: nat, mask: nat, x: Cell)
    requires Square(g, n) && mask < 8 && AllIn(n, cells) && InRange(n, x)
    ensures x !in cells || At(g, x).Some? ==> At(Placed(g, n, cells, data, k, mask), x) == At(g, x)
    ensures x in cells ==> At(Placed(g, n, cells, data, k, mask), x).Some?
    decreases |cells|
  {
    hide Flips, DataBit;
    if cells != [] {
      var y := cells[0];
      assert cells == [y] + cells[1..];
      if At(g, y) == None {
        var g' := Set(g, y, DataBit(data, k) != Flips(mask, y.0, y.1));
        PlacedFrame(g', n, cells[1..], data, k + 1, mask, x);
        if x == y {
          assert At(g', x).Some?;
        } else {
          assert At(g', x) == At(g, x);
        }
      } else {
        PlacedFrame(g, n, cells[1..], data, k, mask, x);
      }
    }
  }

  lemma {:induction false} ReadBackAgrees(g: Grid, h: Grid, after: Grid, n: nat, cells: seq<Cell>, mask: nat)
    requires Square(g, n) && Square(h, n) && Square(after, n) && AllIn(n, cells) && mask < 8
    requires forall i :: 0 <= i < |cells| ==> (At(g, cells[i]) == At(h, cells[i]))
    ensures ReadBack(g, after, n, cells, mask) == ReadBack(h, after, n, cells, mask)
    ensures FreeCount(g, n, cells) == FreeCount(h, n, cells)
    decreases |cells|
  {
    hide Flips;
    if cells != [] {
      ReadBackAgrees(g, h, after, n, cells[1..], mask);
    }
  }

  /** Reading along a path without repetitions gives back the bits written along it. */
  lemma {:induction false} ReadBackPlaced(g: Grid, n: nat, cells: seq<Cell>, data: seq<bv8>, k: nat, mask: nat)
    requires Square(g, n) && mask < 8 && AllIn(n, cells) && NoDup(cells)
    ensures ReadBack(g, Placed(g, n, cells, data, k, mask), n, cells, mask)
            == DataBits(data, k, FreeCount(g, n, cells))
    decreases |cells|
  {
    hide Flips, DataBit;
    if cells != [] {
      var x, rest := cells[0], cells[1..];
      assert forall i :: 0 <= i < |rest| ==> rest[i] == cells[i + 1];
      assert x !in rest;
      if At(g, x) == None {
        var g' := Set(g, x, DataBit(data, k) != Flips(mask, x.0, x.1));
        var after := Placed(g', n, rest, data, k + 1, mask);
        ReadBackPlaced(g', n, rest, data, k + 1, mask);
        ReadBackAgrees(g, g', after, n, rest, mask);
        PlacedFrame(g', n, rest, data, k + 1, mask, x);
        assert DataBits(data, k, 1 + FreeCount(g, n, rest))
            == [DataBit(data, k)] + DataBits(data, k + 1, FreeCount(g, n, rest));
      } else {
        ReadBackPlaced(g, n, rest, data, k, mask);
      }
    }
  }

  /**
   The result of `mapData` on a symbol whose column 6 is decided: every module ends decided, the
   modules decided before keep their value, and reading the zigzag with the same mask returns the
   codeword bits in order followed by zeros.
   */
  lemma PlacementCorrect(g: Grid, n: nat, data: seq<bv8>, mask: nat)
    requires Square(g, n) && n % 2 == 1 && n >= 21 && mask < 8
    requires forall r :: 0 <= r < n ==> At(g, (r, 6)).Some?
    ensures AllIn(n, Zigzag(n))
    ensures var after := Placed(g, n, Zigzag(n), data, 0, mask);
            && (forall x :: InRange(n, x) ==> At(after, x).Some?)
            && (forall x :: InRange(n, x) && At(g, x).Some? ==> At(after, x) == At(g, x))
            && ReadBack(g, after, n, Zigzag(n), mask) == DataBits(data, 0, FreeCount(g, n, Zigzag(n)))
  {
    ZigzagPath(n);
    hide Placed, Zigzag, Flips, DataBit, DataBits, ReadBack, FreeCount;
    var after := Placed(g, n, Zigzag(n), data, 0, mask);
    ReadBackPlaced(g, n, Zigzag(n), data, 0, mask);
    forall x: Cell | InRange(n, x)
      ensures At(after, x).Some? && (At(g, x).Some? ==> At(after, x) == At(g, x))
    {
      PlacedFrame(g, n, Zigzag(n), data, 0, mask, x);
      if x.1 == 6 {
        assert x == (x.0, 6);
      }
    }
  }
}
