/**
 Every function module of a finished symbol, and the count of the modules left for data: enough
 for all codewords of the version.
 */
module FreeModules {
  import opened Wrappers
  import opened BlockTable
  import opened Placement
  import opened FunctionPatterns

  function Side(typeNumber: int): int {
    4 * typeNumber + 17
  }

  /** The value of a module before the data is placed; None where data goes. */
  function FunctionModule(typeNumber: int, test: bool, bits: bv32, x: Cell): Option<bool>
    requires 1 <= typeNumber <= 10
  {
    PositionsGood(typeNumber);
    var n := Side(typeNumber);
    var format, alignment := FormatIndex(n, x), Alignment(GetPatternPosition(typeNumber).value, x);
    if x == (n - 8, 8) then Some(!test)
    else if format.Some? && format.value < 15 then Some(!test && Bit(bits, format.value))
    else if alignment.Some? then alignment
    else if Finder(0, n - 7, x).Some? then Finder(0, n - 7, x)
    else if Finder(n - 7, 0, x).Some? then Finder(n - 7, 0, x)
    else if Finder(0, 0, x).Some? then Finder(0, 0, x)
    else if InTiming(n, x) then Some((x.0 + x.1) % 2 == 0)
    else None
  }

  /** Whether a module is a function module; depends on the version alone. */
  predicate IsFunction(typeNumber: int, x: Cell)
    requires 1 <= typeNumber <= 10
  {
    FunctionModule(typeNumber, false, 0, x).Some?
  }

  lemma FunctionShape(typeNumber: int, test: bool, bits: bv32, x: Cell)
    requires 1 <= typeNumber <= 10
    ensures FunctionModule(typeNumber, test, bits, x).Some? <==> IsFunction(typeNumber, x)
  {
    hide Alignment, Finder, Bit, FormatIndex, GetPatternPosition;
  }

  // ----- The patterns of the symbol -----

  /** The three finder patterns with their separators are complete. */
  lemma FindersIntact(typeNumber: int, test: bool, bits: bv32, centre: Cell, x: Cell)
    requires 1 <= typeNumber <= 10
    requires centre == (3, 3) || centre == (4 * typeNumber + 13, 3) || centre == (3, 4 * typeNumber + 13)
    requires InRange(Side(typeNumber), x) && Distance(x, centre) <= 4
    ensures FunctionModule(typeNumber, test, bits, x) == Some(FinderDark(Distance(x, centre)))
  {
    PositionsGood(typeNumber);
    hide GetPatternPosition, Bit;
    var n := Side(typeNumber);
    AlignmentClear(GetPatternPosition(typeNumber).value, n, x);
    assert FormatIndex(n, x) == None;
    hide Alignment, FinderDark;
  }

  /** Alignment patterns stay clear of the finders and of the format information. */
  lemma AlignmentClear(pos: seq<int>, n: nat, x: Cell)
    requires GoodPositions(pos, n) && n >= 21
    ensures Alignment(pos, x).Some? ==> !InFinder(n, x) && FormatIndex(n, x) == None && x != (n - 8, 8)
    ensures Alignment(pos, x).Some? && InTiming(n, x) ==> Alignment(pos, x) == Some((x.0 + x.1) % 2 == 0)
  {
  }

  /** Every alignment pattern outside the finder corners is complete. */
  lemma AlignmentsIntact(typeNumber: int, test: bool, bits: bv32, k: nat, l: nat, x: Cell)
    requires 1 <= typeNumber <= 10
    ensures GetPatternPosition(typeNumber).Some?
    ensures var pos := GetPatternPosition(typeNumber).value;
            k < |pos| && l < |pos| && !Corner(pos, k, l) && Distance(x, (pos[k], pos[l])) <= 2 ==>
              FunctionModule(typeNumber, test, bits, x) == Some(Distance(x, (pos[k], pos[l])) != 1)
  {
    PositionsGood(typeNumber);
    hide GetPatternPosition, Bit;
    var pos, n := GetPatternPosition(typeNumber).value, Side(typeNumber);
    if k < |pos| && l < |pos| && !Corner(pos, k, l) && Distance(x, (pos[k], pos[l])) <= 2 {
      assert Index(pos, x.0) == Some(k) && Index(pos, x.1) == Some(l);
      AlignmentClear(pos, n, x);
      hide FormatIndex;
    }
  }

  /** The timing patterns alternate from finder to finder, also through alignment patterns. */
  lemma TimingIntact(typeNumber: int, test: bool, bits: bv32, x: Cell)
    requires 1 <= typeNumber <= 10
    requires (x.0 == 6 && 8 <= x.1 < 4 * typeNumber + 9) || (x.1 == 6 && 8 <= x.0 < 4 * typeNumber + 9)
    ensures FunctionModule(typeNumber, test, bits, x) == Some((x.0 + x.1) % 2 == 0)
  {
    PositionsGood(typeNumber);
    var n := Side(typeNumber);
    assert FormatIndex(n, x) == None;
    assert !InFinder(n, x);
    hide GetPatternPosition, Bit, FinderDark, FormatIndex;
    AlignmentClear(GetPatternPosition(typeNumber).value, n, x);
    hide Alignment;
  }

  /** Both copies of the format information, and the dark module. */
  lemma FormatIntact(typeNumber: int, bits: bv32, i: nat)
    requires 1 <= typeNumber <= 10 && i < 15
    ensures var n := Side(typeNumber);
            && FunctionModule(typeNumber, false, bits, FormatInColumn(n, i)) == Some(Bit(bits, i))
            && FunctionModule(typeNumber, false, bits, FormatInRow(n, i)) == Some(Bit(bits, i))
            && FunctionModule(typeNumber, false, bits, (n - 8, 8)) == Some(true)
  {
    hide GetPatternPosition, Bit, Alignment, Finder;
  }

  /** Column 6 is never free. */
  lemma ColumnSixDecided(typeNumber: int, r: int)
    requires 1 <= typeNumber <= 10 && 0 <= r < Side(typeNumber)
    ensures IsFunction(typeNumber, (r, 6))
  {
  }

  // ----- Counting -----

  datatype Rect = Rect(top: int, left: int, height: int, width: int)

  predicate InRect(x: Cell, r: Rect) {
    r.top <= x.0 < r.top + r.height && r.left <= x.1 < r.left + r.width
  }

  function Area(r: Rect): int {
    r.height * r.width
  }

  /** How many of the first k rectangles contain x. */
  function Memberships(x: Cell, rects: seq<Rect>, k: nat): nat
    requires k <= |rects|
  {
    if k == 0 then 0 else Memberships(x, rects, k - 1) + if InRect(x, rects[k - 1]) then 1 else 0
  }

  function Hits(cells: seq<Cell>, r: Rect): nat {
    if cells == [] then 0 else (if InRect(cells[0], r) then 1 else 0) + Hits(cells[1..], r)
  }

  function SumHits(cells: seq<Cell>, rects: seq<Rect>, k: nat): nat
    requires k <= |rects|
  {
    if cells == [] then 0 else Memberships(cells[0], rects, k) + SumHits(cells[1..], rects, k)
  }

  function TotalArea(rects: seq<Rect>, k: nat): int
    requires k <= |rects|
  {
    if k == 0 then 0 else TotalArea(rects, k - 1) + Area(rects[k - 1])
  }

  lemma {:induction false} MembershipOf(x: Cell, rects: seq<Rect>, k: nat, j: nat)
    requires j < k <= |rects| && InRect(x, rects[j])
    ensures Memberships(x, rects, k) >= 1
  {
    if j < k - 1 {
      MembershipOf(x, rects, k - 1, j);
    }
  }

  /** Each cell is free or in a rectangle. */
  lemma {:induction false} FreeOrCovered(g: Grid, n: nat, cells: seq<Cell>, rects: seq<Rect>)
    requires Square(g, n) && AllIn(n, cells)
    requires forall i :: 0 <= i < |cells| && At(g, cells[i]).Some? ==> Memberships(cells[i], rects, |rects|) >= 1
    ensures FreeCount(g, n, cells) + SumHits(cells, rects, |rects|) >= |cells|
  {
    hide Memberships;
    if cells != [] {
      FreeOrCovered(g, n, cells[1..], rects);
    }
  }

  lemma {:induction false} SumHitsStep(cells: seq<Cell>, rects: seq<Rect>, k: nat)
    requires k < |rects|
    ensures SumHits(cells, rects, k + 1) == SumHits(cells, rects, k) + Hits(cells, rects[k])
  {
    hide InRect;
    if cells != [] {
      SumHitsStep(cells[1..], rects, k);
    }
  }

  lemma {:induction false} NoHits(cells: seq<Cell>, r: Rect)
    requires forall x :: x in cells ==> !InRect(x, r)
    ensures Hits(cells, r) == 0
  {
    hide InRect;
    if cells != [] {
      NoHits(cells[1..], r);
    }
  }

  lemma {:induction false} OneHit(cells: seq<Cell>, r: Rect)
    requires NoDup(cells) && r.height == 1 && r.width == 1
    ensures Hits(cells, r) <= 1
  {
    if cells != [] {
      var rest := cells[1..];
      assert forall i :: 0 <= i < |rest| ==> rest[i] == cells[i + 1];
      if InRect(cells[0], r) {
        assert forall x :: x in rest ==> x != cells[0];
        NoHits(rest, r);
      } else {
        OneHit(rest, r);
      }
    }
  }

  lemma {:induction false} SplitHits(cells: seq<Cell>, r: Rect, a: Rect, b: Rect)
    requires forall x :: InRect(x, r) <==> InRect(x, a) || InRect(x, b)
    requires forall x :: !(InRect(x, a) && InRect(x, b))
    ensures Hits(cells, r) == Hits(cells, a) + Hits(cells, b)
  {
    hide InRect;
    if cells != [] {
      SplitHits(cells[1..], r, a, b);
    }
  }

  lemma {:induction false} RowHits(cells: seq<Cell>, r: Rect)
    requires NoDup(cells) && r.height == 1 && r.width >= 0
    ensures Hits(cells, r) <= r.width
    decreases r.width
  {
    if r.width == 0 {
      NoHits(cells, r);
    } else {
      var a, b := r.(width := r.width - 1), Rect(r.top, r.left + r.width - 1, 1, 1);
      SplitHits(cells, r, a, b);
      RowHits(cells, a);
      OneHit(cells, b);
    }
  }

  /** A path without repetitions meets a rectangle at most as often as its area. */
  lemma {:induction false} RectHits(cells: seq<Cell>, r: Rect)
    requires NoDup(cells) && r.height >= 0 && r.width >= 0
    ensures Hits(cells, r) <= Area(r)
    decreases r.height
  {
    if r.height == 0 {
      NoHits(cells, r);
    } else {
      var a, b := r.(height := r.height - 1), Rect(r.top + r.height - 1, r.left, 1, r.width);
      SplitHits(cells, r, a, b);
      RectHits(cells, a);
      RowHits(cells, b);
      assert Area(r) == Area(a) + r.width;
    }
  }

  lemma {:induction false} HitsBound(cells: seq<Cell>, rects: seq<Rect>, k: nat)
    requires NoDup(cells) && k <= |rects|
    requires forall j :: 0 <= j < |rects| ==> rects[j].height >= 0 && rects[j].width >= 0
    ensures SumHits(cells, rects, k) <= TotalArea(rects, k)
  {
    if k == 0 {
      EmptySum(cells, rects);
    } else {
      HitsBound(cells, rects, k - 1);
      SumHitsStep(cells, rects, k - 1);
      RectHits(cells, rects[k - 1]);
    }
  }

  lemma {:induction false} EmptySum(cells: seq<Cell>, rects: seq<Rect>)
    ensures SumHits(cells, rects, 0) == 0
  {
    if cells != [] {
      EmptySum(cells[1..], rects);
    }
  }

  lemma {:induction false} PairLength(n: nat, col: int, up: bool, t: nat)
    requires t <= n
    ensures |PairFrom(n, col, up, t)| == 2 * (n - t)
    decreases n - t
  {
    if t < n {
      PairLength(n, col, up, t + 1);
    }
  }

  /** k column pairs, the last three of them left of column 6. */
  lemma {:induction false} ZigzagLength(n: nat, k: nat, col: int, up: bool)
    requires (k <= 3 && col == 2 * k - 1) || (k >= 3 && col == 2 * k)
    ensures |ZigzagFrom(n, col, up)| == 2 * n * k
    decreases k
  {
    hide PairFrom;
    if k > 0 {
      PairLength(n, Skip6(col), up, 0);
      ZigzagLength(n, k - 1, Skip6(col) - 2, !up);
      assert 2 * n * k == 2 * n * (k - 1) + 2 * n;
    }
  }

  /** Rectangles that cover every function module outside column 6. */
  function RectAt(pos: seq<int>, n: int, k: nat): Rect {
    var one, two := if |pos| >= 2 then 5 else 0, if |pos| == 3 then 5 else 0;
    var m := if |pos| == 3 then pos[1] else 0;
    match k
    case 0 => Rect(0, 0, 8, 6) case 1 => Rect(0, 7, 8, 1)
    case 2 => Rect(n - 8, 0, 8, 6) case 3 => Rect(n - 8, 7, 8, 1)
    case 4 => Rect(0, n - 8, 8, 8)
    case 5 => Rect(6, 8, 1, n - 16)
    case 6 => Rect(8, 0, 1, 6) case 7 => Rect(8, 7, 1, 2) case 8 => Rect(8, n - 8, 1, 8)
    case 9 => Rect(0, 8, 6, 1) case 10 => Rect(7, 8, 1, 1) case 11 => Rect(n - 8, 8, 8, 1)
    case 12 => Rect(n - 9, n - 9, one, 5)
    case 13 => Rect(4, m - 2, two, 5) case 14 => Rect(m - 2, 4, two, 2) case 15 => Rect(m - 2, 7, two, 2)
    case 16 => Rect(m - 2, m - 2, two, 5) case 17 => Rect(m - 2, n - 9, two, 5)
    case _ => Rect(n - 9, m - 2, two, 5)
  }

  function Rects(pos: seq<int>, n: int): (r: seq<Rect>)
    ensures |r| == 19
  {
    seq(19, k requires 0 <= k < 19 => RectAt(pos, n, k))
  }

  lemma RectsArea(pos: seq<int>, n: int)
    requires n >= 21
    ensures TotalArea(Rects(pos, n), 19)
            == 191 + n + (if |pos| >= 2 then 25 else 0) + (if |pos| == 3 then 120 else 0)
    ensures forall j :: 0 <= j < 19 ==> Rects(pos, n)[j].height >= 0 && Rects(pos, n)[j].width >= 0
  {
    hide TotalArea, Area;
    var r := Rects(pos, n);
    AreaStart(r);
    AreaOf(r, 0, 48);
    AreaOf(r, 1, 8);
    AreaOf(r, 2, 48);
    AreaOf(r, 3, 8);
    AreaOf(r, 4, 64);
    AreaOf(r, 5, n - 16);
    AreaOf(r, 6, 6);
    AreaOf(r, 7, 2);
    AreaOf(r, 8, 8);
    AreaOf(r, 9, 6);
    AreaOf(r, 10, 1);
    AreaOf(r, 11, 8);
    AreaOf(r, 12, if |pos| >= 2 then 25 else 0);
    var two := if |pos| == 3 then 5 else 0;
    AreaOf(r, 13, 5 * two);
    AreaOf(r, 14, 2 * two);
    AreaOf(r, 15, 2 * two);
    AreaOf(r, 16, 5 * two);
    AreaOf(r, 17, 5 * two);
    AreaOf(r, 18, 5 * two);
  }

  lemma AreaStart(rects: seq<Rect>)
    ensures TotalArea(rects, 0) == 0
  {
  }

  lemma AreaOf(rects: seq<Rect>, k: nat, area: int)
    requires k < |rects| && rects[k].height * rects[k].width == area
    ensures TotalArea(rects, k + 1) == TotalArea(rects, k) + area
  {
  }

  lemma AlignmentCovered(pos: seq<int>, n: nat, x: Cell) returns (j: nat)
    requires GoodPositions(pos, n) && Alignment(pos, x).Some? && x.1 != 6
    ensures j < 19 && InRect(x, Rects(pos, n)[j])
  {
    AlignmentBounds(pos, n, x);
    var k, l := Index(pos, x.0).value, Index(pos, x.1).value;
    if |pos| == 2 {
      j := 12;
    } else if k == 0 {
      j := 13;
    } else if l == 0 {
      j := if x.1 < 6 then 14 else 15;
    } else {
      j := if k == 1 then 15 + l else if l == 1 then 18 else 12;
    }
  }

  lemma FunctionCovered(typeNumber: int, x: Cell)
    requires 1 <= typeNumber <= 10 && InRange(Side(typeNumber), x) && IsFunction(typeNumber, x) && x.1 != 6
    ensures GetPatternPosition(typeNumber).Some?
    ensures Memberships(x, Rects(GetPatternPosition(typeNumber).value, Side(typeNumber)), 19) >= 1
  {
    PositionsGood(typeNumber);
    var n, pos := Side(typeNumber), GetPatternPosition(typeNumber).value;
    hide GetPatternPosition, Rects, Memberships;
    var j: nat;
    if Alignment(pos, x).Some? {
      hide IsFunction, Alignment;
      j := AlignmentCovered(pos, n, x);
    } else {
      FunctionBoxes(typeNumber, x);
      hide IsFunction, Alignment, GoodPositions;
      j := BoxCovered(pos, n, x);
    }
    MembershipOf(x, Rects(pos, n), 19, j);
  }

  /** Finders, timing, format information and the dark module, as coordinates. */
  predicate InBoxes(n: nat, x: Cell) {
    || ((x.0 < 8 || x.0 >= n - 8) && x.1 < 8)
    || (x.0 < 8 && x.1 >= n - 8)
    || (x.0 == 6 && 8 <= x.1 < n - 8)
    || (x.0 == 8 && (x.1 < 6 || x.1 == 7 || x.1 == 8 || x.1 >= n - 8))
    || (x.1 == 8 && (x.0 < 6 || x.0 == 7 || x.0 == 8 || x.0 >= n - 8))
  }

  lemma FunctionBoxes(typeNumber: int, x: Cell)
    requires 1 <= typeNumber <= 10 && InRange(Side(typeNumber), x) && IsFunction(typeNumber, x) && x.1 != 6
    requires GetPatternPosition(typeNumber).Some?
    requires Alignment(GetPatternPosition(typeNumber).value, x) == None
    ensures InBoxes(Side(typeNumber), x)
  {
    hide GetPatternPosition, Alignment, Bit, FinderDark;
  }

  lemma BoxCovered(pos: seq<int>, n: nat, x: Cell) returns (j: nat)
    requires n >= 21 && InRange(n, x) && InBoxes(n, x) && x.1 != 6
    ensures j < 19 && InRect(x, Rects(pos, n)[j])
  {
    if x.0 < 8 && x.1 < 8 {
      j := if x.1 < 6 then 0 else 1;
    } else if x.0 >= n - 8 && x.1 < 8 {
      j := if x.1 < 6 then 2 else 3;
    } else if x.0 < 8 && x.1 >= n - 8 {
      j := 4;
    } else if x.0 == 6 {
      j := 5;
    } else if x.0 == 8 {
      j := if x.1 < 6 then 6 else if x.1 <= 8 then 7 else 8;
    } else {
      j := if x.0 < 6 then 9 else if x.0 == 7 then 10 else 11;
    }
  }

  /** The grid holds exactly the function modules. */
  ghost predicate OnlyFunctions(g: Grid, typeNumber: int)
    requires 1 <= typeNumber <= 10
  {
    var n := Side(typeNumber);
    Square(g, n) && forall x :: InRange(n, x) ==> (At(g, x).Some? <==> IsFunction(typeNumber, x))
  }

  /** Every version leaves at least as many free modules as its codewords have bits. */
  lemma RoomForCodewords(g: Grid, typeNumber: int)
    requires 1 <= typeNumber <= 10 && OnlyFunctions(g, typeNumber)
    ensures AllIn(Side(typeNumber), Zigzag(Side(typeNumber)))
    ensures FreeCount(g, Side(typeNumber), Zigzag(Side(typeNumber))) >= 8 * Capacity(typeNumber)
  {
    hide Rects, IsFunction, Memberships, SumHits, TotalArea, FreeCount, GetPatternPosition, ZigzagFrom, NoDup;
    PositionsGood(typeNumber);
    var n, pos := Side(typeNumber), GetPatternPosition(typeNumber).value;
    var cells, rects := Zigzag(n), Rects(pos, n);
    ZigzagPath(n);
    ZigzagLength(n, 2 * typeNumber + 8, n - 1, true);
    RectsArea(pos, n);
    forall i | 0 <= i < |cells| && At(g, cells[i]).Some? ensures Memberships(cells[i], rects, |rects|) >= 1 {
      assert cells[i] in cells;
      FunctionCovered(typeNumber, cells[i]);
    }
    FreeOrCovered(g, n, cells, rects);
    HitsBound(cells, rects, 19);
    Slack(typeNumber);
  }

  lemma Slack(typeNumber: int)
    requires 1 <= typeNumber <= 10
    ensures GetPatternPosition(typeNumber).Some?
    ensures var n, pos := Side(typeNumber), GetPatternPosition(typeNumber).value;
            2 * n * (2 * typeNumber + 8) - (191 + n + (if |pos| >= 2 then 25 else 0) + (if |pos| == 3 then 120 else 0))
            >= 8 * Capacity(typeNumber)
  {
  }
}
