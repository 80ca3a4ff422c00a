/**
 The modules that do not carry data: finder patterns with their separators, alignment patterns,
 timing patterns and format information.
 */
module FunctionPatterns {
  import opened Wrappers
  import opened Placement
  import FormatInformation

  function Abs(a: int): nat {
    if a < 0 then -a else a
  }

  /** Distance in king's moves. */
  function Distance(x: Cell, y: Cell): nat {
    var r, c := Abs(x.0 - y.0), Abs(x.1 - y.1);
    if r < c then c else r
  }

  // ----- Finder patterns -----

  /** A finder pattern with its separator reaches four modules from its centre. */
  predicate InFinder(n: nat, x: Cell) {
    Distance(x, (3, 3)) <= 4 || Distance(x, (n - 4, 3)) <= 4 || Distance(x, (3, n - 4)) <= 4
  }

  /** Rings around the centre of a finder: dark core, light ring, dark ring, light separator. */
  predicate FinderDark(distance: nat) {
    distance <= 1 || distance == 3
  }

  /** The value a finder pattern with corner (row, col) gives a module. */
  function Finder(row: int, col: int, x: Cell): Option<bool> {
    var d := Distance(x, (row + 3, col + 3));
    if d <= 4 then Some(FinderDark(d)) else None
  }

  /** The program's condition describes the rings. */
  lemma Rings(row: int, col: int, x: Cell)
    ensures var r, c := x.0 - row, x.1 - col;
            Finder(row, col, x)
            == if -1 <= r <= 7 && -1 <= c <= 7 then
                 Some((0 <= r <= 6 && (c == 0 || c == 6)) || (0 <= c <= 6 && (r == 0 || r == 6))
                     || (2 <= r <= 4 && 2 <= c <= 4))
               else None
  {
  }

  method SetupPositionProbePattern(m: array2<Option<bool>>, row: int, col: int)
    requires m.Length0 == m.Length1
    modifies m
    ensures forall i, j :: 0 <= i < m.Length0 && 0 <= j < m.Length0 ==>
              m[i, j] == var f := Finder(row, col, (i, j)); if f.Some? then f else old(m[i, j])
  {
    hide Finder;
    var n := m.Length0;
    forall x: Cell ensures Finder(row, col, x).Some? ==> -1 <= x.0 - row <= 7 {
      Rings(row, col, x);
    }
    for r := -1 to 8
      invariant forall i, j :: 0 <= i < n && 0 <= j < n ==>
                  m[i, j] == var f := Finder(row, col, (i, j)); if f.Some? && i < row + r then f else old(m[i, j])
    {
      if row + r <= -1 || n <= row + r {
        continue;
      }
      FinderRow(m, row, col, r);
    }
  }

  /** The inner loop: one row of a finder pattern. */
  method FinderRow(m: array2<Option<bool>>, row: int, col: int, r: int)
    requires m.Length0 == m.Length1 && -1 <= r <= 7 && 0 <= row + r < m.Length0
    modifies m
    ensures forall i, j :: 0 <= i < m.Length0 && 0 <= j < m.Length0 ==>
              m[i, j] == var f := Finder(row, col, (i, j)); if f.Some? && i == row + r then f else old(m[i, j])
  {
    hide Finder;
    var n := m.Length0;
    forall x: Cell ensures Finder(row, col, x).Some? ==> -1 <= x.1 - col <= 7 {
      Rings(row, col, x);
    }
    for c := -1 to 8
      invariant forall i, j :: 0 <= i < n && 0 <= j < n ==>
                  m[i, j] == var f := Finder(row, col, (i, j));
                             if f.Some? && i == row + r && j < col + c then f else old(m[i, j])
    {
      if col + c <= -1 || n <= col + c {
        continue;
      }
      Rings(row, col, (row + r, col + c));
      if (0 <= r <= 6 && (c == 0 || c == 6)) || (0 <= c <= 6 && (r == 0 || r == 6)) || (2 <= r <= 4 && 2 <= c <= 4) {
        m[row + r, col + c] := Some(true);
      } else {
        m[row + r, col + c] := Some(false);
      }
    }
  }

  // ----- Alignment patterns -----

  /** PATTERN_POSITION_TABLE; None stands for the missing entries, whose length cannot be read. */
  function GetPatternPosition(typeNumber: int): Option<seq<int>> {
    match typeNumber
    case 1 => Some([]) case 2 => Some([6, 18]) case 3 => Some([6, 22]) case 4 => Some([6, 26])
    case 5 => Some([6, 30]) case 6 => Some([6, 34])
    case 7 => Some([6, 22, 38]) case 8 => Some([6, 24, 42]) case 9 => Some([6, 26, 46]) case 10 => Some([6, 28, 50])
    case _ => None
  }

  /** The shape of a row of the table in a symbol of side n. */
  predicate GoodPositions(pos: seq<int>, n: nat) {
    || (pos == [] && n == 21)
    || (|pos| == 2 && pos[0] == 6 && pos[1] == n - 7 && 25 <= n < 45)
    || (|pos| == 3 && pos[0] == 6 && pos[2] == n - 7 && n >= 45 && 18 <= pos[1] <= n - 19 && pos[1] % 2 == 0
        && 2 * pos[1] == n - 1)
  }

  lemma PositionsGood(typeNumber: int)
    ensures GetPatternPosition(typeNumber).Some? <==> 1 <= typeNumber <= 10
    ensures 1 <= typeNumber <= 10 ==> GoodPositions(GetPatternPosition(typeNumber).value, 4 * typeNumber + 17)
  {
  }

  /** The index of the coordinate whose pattern reaches v. */
  function Index(pos: seq<int>, v: int): Option<nat> {
    if |pos| > 0 && Abs(v - pos[0]) <= 2 then Some(0)
    else if |pos| > 1 && Abs(v - pos[1]) <= 2 then Some(1)
    else if |pos| > 2 && Abs(v - pos[2]) <= 2 then Some(2)
    else None
  }

  /** The corners that finder patterns occupy. */
  predicate Corner(pos: seq<int>, k: nat, l: nat) {
    (k == 0 && l == 0) || (k == 0 && l == |pos| - 1) || (k == |pos| - 1 && l == 0)
  }

  /** The value an alignment pattern gives a module: dark centre, light ring, dark ring. */
  function Alignment(pos: seq<int>, x: Cell): Option<bool> {
    match (Index(pos, x.0), Index(pos, x.1))
    case (Some(k), Some(l)) =>
      if k < |pos| && l < |pos| && !Corner(pos, k, l) then Some(Distance(x, (pos[k], pos[l])) != 1) else None
    case _ => None
  }

  method PaintAlignment(m: array2<Option<bool>>, row: int, col: int)
    requires m.Length0 == m.Length1
    requires 2 <= row < m.Length0 - 2 && 2 <= col < m.Length0 - 2
    modifies m
    ensures forall i, j :: 0 <= i < m.Length0 && 0 <= j < m.Length0 ==>
              m[i, j] == var d := Distance((i, j), (row, col)); if d <= 2 then Some(d != 1) else old(m[i, j])
  {
    var n := m.Length0;
    for r := -2 to 3
      invariant forall i, j :: 0 <= i < n && 0 <= j < n ==>
                  m[i, j] == if -2 <= i - row < r && -2 <= j - col <= 2
                             then Some(Distance((i, j), (row, col)) != 1) else old(m[i, j])
    {
      for c := -2 to 3
        invariant forall i, j :: 0 <= i < n && 0 <= j < n ==>
                    m[i, j] == if (-2 <= i - row < r && -2 <= j - col <= 2) || (i - row == r && -2 <= j - col < c)
                               then Some(Distance((i, j), (row, col)) != 1) else old(m[i, j])
      {
        if Abs(r) == 2 || Abs(c) == 2 || (r == 0 && c == 0) {
          m[row + r, col + c] := Some(true);
        } else {
          m[row + r, col + c] := Some(false);
        }
      }
    }
  }

  /** The centre with indices (k, l) has a value already, so the program leaves its pattern out. */
  ghost predicate Taken(g: Grid, n: nat, pos: seq<int>, k: nat, l: nat)
    requires Square(g, n) && GoodPositions(pos, n) && k < |pos| && l < |pos|
  {
    At(g, (pos[k], pos[l])) != None
  }

  /** The value the patterns drawn over a symbol give a module. */
  ghost function AlignmentOver(g: Grid, n: nat, pos: seq<int>, x: Cell): Option<bool>
    requires Square(g, n) && GoodPositions(pos, n)
  {
    match (Index(pos, x.0), Index(pos, x.1))
    case (Some(k), Some(l)) =>
      if k < |pos| && l < |pos| && !Taken(g, n, pos, k, l) then Some(Distance(x, (pos[k], pos[l])) != 1) else None
    case _ => None
  }

  /** The patterns of the centres before (k, l) in row-major order. */
  ghost function AlignmentUpTo(g: Grid, n: nat, pos: seq<int>, k: nat, l: nat, x: Cell): Option<bool>
    requires Square(g, n) && GoodPositions(pos, n)
  {
    match (Index(pos, x.0), Index(pos, x.1))
    case (Some(a), Some(b)) => if a < k || (a == k && b < l) then AlignmentOver(g, n, pos, x) else None
    case _ => None
  }

  lemma AlignmentBounds(pos: seq<int>, n: nat, x: Cell)
    requires GoodPositions(pos, n)
    ensures Alignment(pos, x).Some? ==> Index(pos, x.0).Some? && Index(pos, x.0).value < |pos|
                                        && Index(pos, x.1).Some? && Index(pos, x.1).value < |pos|
  {
  }

  /** Passing one centre. */
  lemma AlignmentNext(g: Grid, n: nat, pos: seq<int>, k: nat, l: nat, x: Cell)
    requires Square(g, n) && GoodPositions(pos, n) && k < |pos| && l < |pos|
    ensures AlignmentUpTo(g, n, pos, k, l + 1, x)
            == var d := Distance(x, (pos[k], pos[l]));
               if !Taken(g, n, pos, k, l) && d <= 2 then Some(d != 1) else AlignmentUpTo(g, n, pos, k, l, x)
  {
    hide Taken, At, Square;
  }

  lemma AlignmentRow(g: Grid, n: nat, pos: seq<int>, k: nat, x: Cell)
    requires Square(g, n) && GoodPositions(pos, n) && k < |pos|
    ensures AlignmentUpTo(g, n, pos, k, |pos|, x) == AlignmentUpTo(g, n, pos, k + 1, 0, x)
  {
    hide Taken, At, Square, AlignmentOver;
  }

  lemma AlignmentEnds(g: Grid, n: nat, pos: seq<int>, x: Cell)
    requires Square(g, n) && GoodPositions(pos, n)
    ensures AlignmentUpTo(g, n, pos, 0, 0, x) == None
    ensures AlignmentUpTo(g, n, pos, |pos|, 0, x) == AlignmentOver(g, n, pos, x)
  {
    hide Taken, At, Square;
  }

  /** No pattern drawn before a centre reaches it. */
  lemma CentreFree(g: Grid, n: nat, pos: seq<int>, k: nat, l: nat)
    requires Square(g, n) && GoodPositions(pos, n) && k < |pos| && l < |pos|
    ensures 2 <= pos[k] < n - 2 && 2 <= pos[l] < n - 2
    ensures AlignmentUpTo(g, n, pos, k, l, (pos[k], pos[l])) == None
  {
    hide Taken, At, Square, AlignmentOver;
  }

  /** On a symbol with the finder patterns alone, the centres taken are exactly the corners. */
  lemma AlignmentOverFinders(g: Grid, n: nat, pos: seq<int>, x: Cell)
    requires Square(g, n) && GoodPositions(pos, n)
    requires forall i, j :: 0 <= i < n && 0 <= j < n ==> (g[i][j].Some? <==> InFinder(n, (i, j)))
    ensures AlignmentOver(g, n, pos, x) == Alignment(pos, x)
  {
    match (Index(pos, x.0), Index(pos, x.1))
    case (Some(k), Some(l)) =>
      if k < |pos| && l < |pos| {
        assert g[pos[k]][pos[l]].Some? <==> InFinder(n, (pos[k], pos[l]));
        assert InFinder(n, (pos[k], pos[l])) <==> Corner(pos, k, l);
      }
    case _ =>
  }

  method SetupPositionAdjustPattern(m: array2<Option<bool>>, typeNumber: int) returns (ok: bool)
    requires m.Length0 == m.Length1 == 4 * typeNumber + 17
    modifies m
    ensures ok <==> 1 <= typeNumber <= 10
    ensures ok ==> GetPatternPosition(typeNumber).Some?
                   && GoodPositions(GetPatternPosition(typeNumber).value, m.Length0)
    ensures ok ==> forall i, j :: 0 <= i < m.Length0 && 0 <= j < m.Length0 ==>
              m[i, j] == var pos := GetPatternPosition(typeNumber).value;
                         var a := AlignmentOver(old(Snapshot(m)), m.Length0, pos, (i, j));
                         if a.Some? then a else old(m[i, j])
    ensures !ok ==> forall i, j :: 0 <= i < m.Length0 && 0 <= j < m.Length0 ==> m[i, j] == old(m[i, j])
  {
    PositionsGood(typeNumber);
    hide GetPatternPosition, AlignmentOver, AlignmentUpTo, GoodPositions, Distance;
    var position := GetPatternPosition(typeNumber);
    if position == None {
      return false;
    }
    var pos, n := position.value, m.Length0;
    ghost var g := Snapshot(m);
    forall x ensures AlignmentUpTo(g, n, pos, 0, 0, x) == None
                     && AlignmentUpTo(g, n, pos, |pos|, 0, x) == AlignmentOver(g, n, pos, x)
    {
      AlignmentEnds(g, n, pos, x);
    }
    for k := 0 to |pos|
      invariant forall i, j :: 0 <= i < n && 0 <= j < n ==>
                  m[i, j] == var a := AlignmentUpTo(g, n, pos, k, 0, (i, j)); if a.Some? then a else old(m[i, j])
    {
      for l := 0 to |pos|
        invariant forall i, j :: 0 <= i < n && 0 <= j < n ==>
                    m[i, j] == var a := AlignmentUpTo(g, n, pos, k, l, (i, j)); if a.Some? then a else old(m[i, j])
      {
        var row, col := pos[k], pos[l];
        CentreFree(g, n, pos, k, l);
        forall x ensures AlignmentUpTo(g, n, pos, k, l + 1, x)
                         == var d := Distance(x, (row, col));
                            if !Taken(g, n, pos, k, l) && d <= 2 then Some(d != 1)
                            else AlignmentUpTo(g, n, pos, k, l, x)
        {
          AlignmentNext(g, n, pos, k, l, x);
        }
        if m[row, col] != None {
          continue;
        }
        PaintAlignment(m, row, col);
      }
      forall x ensures AlignmentUpTo(g, n, pos, k, |pos|, x) == AlignmentUpTo(g, n, pos, k + 1, 0, x) {
        AlignmentRow(g, n, pos, k, x);
      }
    }
    ok := true;
  }

  // ----- Timing patterns -----

  /** Row 6 and column 6 between the finders. */
  predicate InTiming(n: nat, x: Cell) {
    (x.1 == 6 && 8 <= x.0 < n - 8) || (x.0 == 6 && 8 <= x.1 < n - 8)
  }

  method SetupTimingPattern(m: array2<Option<bool>>)
    requires m.Length0 == m.Length1 >= 21
    modifies m
    ensures forall i, j :: 0 <= i < m.Length0 && 0 <= j < m.Length0 ==>
              m[i, j] == if old(m[i, j]) == None && InTiming(m.Length0, (i, j)) then Some((i + j) % 2 == 0)
                         else old(m[i, j])
  {
    var n := m.Length0;
    for r := 8 to n - 8
      invariant forall i, j :: 0 <= i < n && 0 <= j < n ==>
                  m[i, j] == if old(m[i, j]) == None && j == 6 && 8 <= i < r then Some((i + j) % 2 == 0)
                             else old(m[i, j])
    {
      if m[r, 6] != None {
        continue;
      }
      m[r, 6] := Some(r % 2 == 0);
    }
    for c := 8 to n - 8
      invariant forall i, j :: 0 <= i < n && 0 <= j < n ==>
                  m[i, j] == if old(m[i, j]) == None && ((j == 6 && 8 <= i < n - 8) || (i == 6 && 8 <= j < c))
                             then Some((i + j) % 2 == 0) else old(m[i, j])
    {
      if m[6, c] != None {
        continue;
      }
      m[6, c] := Some(c % 2 == 0);
    }
  }

  // ----- Format information -----

  /** Where bit i of the format information stands: along column 8 and again along row 8. */
  function FormatInColumn(n: nat, i: nat): Cell {
    if i < 6 then (i, 8) else if i < 8 then (i + 1, 8) else (n - 15 + i, 8)
  }

  function FormatInRow(n: nat, i: nat): Cell {
    if i < 8 then (8, n - i - 1) else if i < 9 then (8, 15 - i) else (8, 14 - i)
  }

  /** The bit of the format information at a module, if it carries one. */
  function FormatIndex(n: nat, x: Cell): Option<nat> {
    if x.1 == 8 && 0 <= x.0 < 6 then Some(x.0)
    else if x.1 == 8 && 7 <= x.0 < 9 then Some(x.0 - 1)
    else if x.1 == 8 && n - 7 <= x.0 < n && n >= 21 then Some(x.0 - (n - 15))
    else if x.0 == 8 && 0 <= x.1 < 6 then Some(14 - x.1)
    else if x.0 == 8 && x.1 == 7 then Some(8)
    else if x.0 == 8 && n - 8 <= x.1 < n then Some(n - 1 - x.1)
    else None
  }

  predicate Bit(w: bv32, i: nat)
    requires i < 32
  {
    (w >> i) & 1 == 1
  }

  /** Each module of column 8 carries the bit that the program puts there, and likewise for row 8. */
  lemma FormatPlaces(n: nat, i: nat, x: Cell)
    requires n >= 21 && i < 15 && InRange(n, x)
    ensures x.1 == 8 ==> (FormatIndex(n, x) == Some(i) <==> x == FormatInColumn(n, i))
    ensures x.1 != 8 ==> (FormatIndex(n, x) == Some(i) <==> x == FormatInRow(n, i))
    ensures FormatInColumn(n, i).1 == 8 && FormatInRow(n, i).1 != 8
    ensures InRange(n, FormatInColumn(n, i)) && InRange(n, FormatInRow(n, i))
  {
  }

  method SetupTypeInfo(m: array2<Option<bool>>, test: bool, data: bv32) returns (bits: bv32)
    requires m.Length0 == m.Length1 >= 21
    modifies m
    ensures bits == FormatInformation.TypeInfo(data)
    ensures forall i, j :: 0 <= i < m.Length0 && 0 <= j < m.Length0 ==>
              m[i, j] == var f := FormatIndex(m.Length0, (i, j));
                         if (i, j) == (m.Length0 - 8, 8) then Some(!test)
                         else if f.Some? && f.value < 15 then Some(!test && Bit(bits, f.value)) else old(m[i, j])
  {
    hide *;
    bits := FormatInformation.GetBCHTypeInfo(data);
    FormatColumn(m, test, bits);
    FormatRow(m, test, bits);
    m[m.Length0 - 8, 8] := Some(!test);
  }

  method FormatColumn(m: array2<Option<bool>>, test: bool, bits: bv32)
    requires m.Length0 == m.Length1 >= 21
    modifies m
    ensures forall r, c :: 0 <= r < m.Length0 && 0 <= c < m.Length0 ==>
              m[r, c] == var f := FormatIndex(m.Length0, (r, c));
                         if c == 8 && f.Some? && f.value < 15 then Some(!test && Bit(bits, f.value)) else old(m[r, c])
  {
    hide Bit, FormatIndex;
    var n := m.Length0;
    for i := 0 to 15
      invariant forall r, c :: 0 <= r < n && 0 <= c < n ==>
                  m[r, c] == var f := FormatIndex(n, (r, c));
                             if c == 8 && f.Some? && f.value < i then Some(!test && Bit(bits, f.value))
                             else old(m[r, c])
    {
      forall x | InRange(n, x)
        ensures InRange(n, FormatInColumn(n, i)) && FormatInColumn(n, i).1 == 8
        ensures x.1 == 8 ==> (FormatIndex(n, x) == Some(i) <==> x == FormatInColumn(n, i))
      {
        FormatPlaces(n, i, x);
      }
      var mod := !test && Bit(bits, i);
      if i < 6 {
        m[i, 8] := Some(mod);
      } else if i < 8 {
        m[i + 1, 8] := Some(mod);
      } else {
        m[n - 15 + i, 8] := Some(mod);
      }
    }
  }

  method FormatRow(m: array2<Option<bool>>, test: bool, bits: bv32)
    requires m.Length0 == m.Length1 >= 21
    modifies m
    ensures forall r, c :: 0 <= r < m.Length0 && 0 <= c < m.Length0 ==>
              m[r, c] == var f := FormatIndex(m.Length0, (r, c));
                         if c != 8 && f.Some? && f.value < 15 then Some(!test && Bit(bits, f.value)) else old(m[r, c])
  {
    hide Bit, FormatIndex;
    var n := m.Length0;
    for i := 0 to 15
      invariant forall r, c :: 0 <= r < n && 0 <= c < n ==>
                  m[r, c] == var f := FormatIndex(n, (r, c));
                             if c != 8 && f.Some? && f.value < i then Some(!test && Bit(bits, f.value))
                             else old(m[r, c])
    {
      forall x | InRange(n, x)
        ensures InRange(n, FormatInRow(n, i)) && FormatInRow(n, i).1 != 8
        ensures x.1 != 8 ==> (FormatIndex(n, x) == Some(i) <==> x == FormatInRow(n, i))
      {
        FormatPlaces(n, i, x);
      }
      var mod := !test && Bit(bits, i);
      if i < 8 {
        m[8, n - i - 1] := Some(mod);
      } else if i < 9 {
        m[8, 15 - i - 1 + 1] := Some(mod);
      } else {
        m[8, 15 - i - 1] := Some(mod);
      }
    }
  }
}
