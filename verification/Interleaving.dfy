/**
 Column-wise interleaving of blocks of different lengths, the position every codeword goes to,
 and the de-interleaver that reads it back.
 */
module Interleaving {

  // ----- Specification -----

  /** Entry i of every block long enough to have one, in block order. */
  function Column<T>(blocks: seq<seq<T>>, i: nat): seq<T> {
    if blocks == [] then []
    else
      var last := blocks[|blocks| - 1];
      Column(blocks[..|blocks| - 1], i) + if i < |last| then [last[i]] else []
  }

  /** The first n columns one after the other. */
  function Columns<T>(blocks: seq<seq<T>>, n: nat): seq<T> {
    if n == 0 then [] else Columns(blocks, n - 1) + Column(blocks, n - 1)
  }

  function Lengths<T>(blocks: seq<seq<T>>): (r: seq<nat>)
    ensures |r| == |blocks|
  {
    seq(|blocks|, r requires 0 <= r < |blocks| => |blocks[r]|)
  }

  function Min(a: nat, b: nat): nat {
    if a < b then a else b
  }

  /** How many of the first r blocks have an entry i. */
  function Rank(lens: seq<nat>, r: nat, i: nat): nat
    requires r <= |lens|
  {
    if r == 0 then 0 else Rank(lens, r - 1, i) + if i < lens[r - 1] then 1 else 0
  }

  /** How many entries the first r blocks have below row i. */
  function Below(lens: seq<nat>, r: nat, i: nat): nat
    requires r <= |lens|
  {
    if r == 0 then 0 else Below(lens, r - 1, i) + Min(lens[r - 1], i)
  }

  function Total(lens: seq<nat>, r: nat): nat
    requires r <= |lens|
  {
    if r == 0 then 0 else Total(lens, r - 1) + lens[r - 1]
  }

  /** Where entry i of block r goes. */
  function Position(lens: seq<nat>, r: nat, i: nat): nat
    requires r <= |lens|
  {
    Below(lens, |lens|, i) + Rank(lens, r, i)
  }

  /** n is at least the length of every block. */
  predicate Covers(lens: seq<nat>, n: nat) {
    forall r :: 0 <= r < |lens| ==> lens[r] <= n
  }

  // ----- The loops -----

  /** The length of the longest block. */
  function MaxLength<T>(blocks: seq<seq<T>>): (n: nat)
    ensures Covers(Lengths(blocks), n)
  {
    if blocks == [] then 0
    else
      var m := |blocks| - 1;
      var front := MaxLength(blocks[..m]);
      assert forall r :: 0 <= r < m ==> Lengths(blocks[..m])[r] == Lengths(blocks)[r];
      if front < |blocks[m]| then |blocks[m]| else front
  }

  /** One interleaving loop: writes from `start` on, each position once, and returns the next index. */
  method Interleave<T>(blocks: seq<seq<T>>, maxCount: nat, data: array<T>, start: nat) returns (index: nat)
    requires Covers(Lengths(blocks), maxCount)
    requires start + Total(Lengths(blocks), |blocks|) <= data.Length
    modifies data
    ensures index == start + Total(Lengths(blocks), |blocks|)
    ensures data[start..index] == Columns(blocks, maxCount)
    ensures forall k :: 0 <= k < start || index <= k < data.Length ==> data[k] == old(data[k])
  {
    hide Column, Below, Rank;
    ghost var lens := Lengths(blocks);
    index := start;
    CoveredTotal(lens, |lens|, maxCount);
    for i := 0 to maxCount
      invariant index == start + Below(lens, |lens|, i) <= data.Length
      invariant data[start..index] == Columns(blocks, i)
      invariant forall k :: 0 <= k < start || index <= k < data.Length ==> data[k] == old(data[k])
    {
      ColumnLength(blocks, i);
      BelowStep(lens, |lens|, i);
      BelowTotal(lens, |lens|, i + 1);
      var from := index;
      ghost var done := data[start..index];
      index := WriteColumn(blocks, i, data, from);
      assert data[start..index] == data[start..from] + data[from..index];
      assert data[start..from] == done;
    }
  }

  /** The inner loop over the blocks. */
  method WriteColumn<T>(blocks: seq<seq<T>>, i: nat, data: array<T>, from: nat) returns (index: nat)
    requires from + |Column(blocks, i)| <= data.Length
    modifies data
    ensures index == from + |Column(blocks, i)|
    ensures data[from..index] == Column(blocks, i)
    ensures forall k :: 0 <= k < from || index <= k < data.Length ==> data[k] == old(data[k])
  {
    index := from;
    for r := 0 to |blocks|
      invariant index == from + |Column(blocks[..r], i)| <= data.Length
      invariant data[from..index] == Column(blocks[..r], i)
      invariant forall k :: 0 <= k < from || index <= k < data.Length ==> data[k] == old(data[k])
    {
      assert blocks[..r + 1][..r] == blocks[..r];
      ColumnPrefix(blocks, i, r + 1);
      if i < |blocks[r]| {
        data[index] := blocks[r][i];
        index := index + 1;
      }
    }
    assert blocks[..|blocks|] == blocks;
  }

  lemma {:induction false} ColumnPrefix<T>(blocks: seq<seq<T>>, i: nat, r: nat)
    requires r <= |blocks|
    ensures |Column(blocks[..r], i)| <= |Column(blocks, i)|
    decreases |blocks| - r
  {
    if r == |blocks| {
      assert blocks[..r] == blocks;
    } else {
      ColumnPrefix(blocks, i, r + 1);
      assert blocks[..r + 1][..r] == blocks[..r];
    }
  }

  // ----- Sizes -----

  lemma {:induction false} RankPrefix(a: seq<nat>, b: seq<nat>, r: nat, i: nat)
    requires r <= |a| && r <= |b| && a[..r] == b[..r]
    ensures Rank(a, r, i) == Rank(b, r, i)
  {
    if r > 0 {
      assert a[..r][..r - 1] == a[..r - 1] && b[..r][..r - 1] == b[..r - 1];
      assert a[r - 1] == a[..r][r - 1] == b[r - 1];
      RankPrefix(a, b, r - 1, i);
    }
  }

  lemma {:induction false} ColumnLength<T>(blocks: seq<seq<T>>, i: nat)
    ensures |Column(blocks, i)| == Rank(Lengths(blocks), |blocks|, i)
  {
    if blocks != [] {
      var m := |blocks| - 1;
      ColumnLength(blocks[..m], i);
      assert Lengths(blocks[..m]) == Lengths(blocks)[..m];
      RankPrefix(Lengths(blocks[..m]), Lengths(blocks), m, i);
    }
  }

  /** Column i holds entry i of block r at the rank of r. */
  lemma {:induction false} ColumnEntry<T>(blocks: seq<seq<T>>, i: nat, r: nat)
    requires r < |blocks| && i < |blocks[r]|
    ensures Rank(Lengths(blocks), r, i) < |Column(blocks, i)|
    ensures Column(blocks, i)[Rank(Lengths(blocks), r, i)] == blocks[r][i]
  {
    var m := |blocks| - 1;
    var front, lens := blocks[..m], Lengths(blocks);
    assert Lengths(front) == lens[..m];
    RankPrefix(Lengths(front), lens, r, i);
    if r < m {
      ColumnEntry(front, i, r);
    } else {
      ColumnLength(front, i);
    }
  }

  lemma {:induction false} BelowStep(lens: seq<nat>, r: nat, i: nat)
    requires r <= |lens|
    ensures Below(lens, r, i + 1) == Below(lens, r, i) + Rank(lens, r, i)
  {
    if r > 0 {
      BelowStep(lens, r - 1, i);
    }
  }

  lemma {:induction false} BelowTotal(lens: seq<nat>, r: nat, i: nat)
    requires r <= |lens|
    ensures Below(lens, r, i) <= Total(lens, r)
  {
    if r > 0 {
      BelowTotal(lens, r - 1, i);
    }
  }

  lemma {:induction false} CoveredTotal(lens: seq<nat>, r: nat, n: nat)
    requires r <= |lens| && Covers(lens, n)
    ensures Below(lens, r, n) == Total(lens, r)
    ensures Below(lens, r, 0) == 0
  {
    if r > 0 {
      CoveredTotal(lens, r - 1, n);
    }
  }

  // ----- Every entry has its own position, and every position is used -----

  lemma {:induction false} ColumnsLength<T>(blocks: seq<seq<T>>, n: nat)
    ensures |Columns(blocks, n)| == Below(Lengths(blocks), |blocks|, n)
  {
    hide Below, Rank, Column;
    var lens := Lengths(blocks);
    if n == 0 {
      CoveredZero(lens, |lens|);
    } else {
      ColumnsLength(blocks, n - 1);
      ColumnLength(blocks, n - 1);
      BelowStep(lens, |lens|, n - 1);
    }
  }

  /** The first n columns hold every entry below row n at its position. */
  lemma {:induction false} ColumnsEntry<T>(blocks: seq<seq<T>>, n: nat, r: nat, i: nat)
    requires r < |blocks| && i < n && i < |blocks[r]|
    ensures Position(Lengths(blocks), r, i) < |Columns(blocks, n)|
    ensures Columns(blocks, n)[Position(Lengths(blocks), r, i)] == blocks[r][i]
  {
    hide Below, Rank, Column;
    if i < n - 1 {
      ColumnsEntry(blocks, n - 1, r, i);
    } else {
      ColumnEntry(blocks, i, r);
      ColumnsLength(blocks, n - 1);
    }
  }

  lemma {:induction false} CoveredZero(lens: seq<nat>, r: nat)
    requires r <= |lens|
    ensures Below(lens, r, 0) == 0
  {
    if r > 0 {
      CoveredZero(lens, r - 1);
    }
  }

  lemma {:induction false} RankMonotone(lens: seq<nat>, r: nat, s: nat, i: nat)
    requires r <= s <= |lens|
    ensures Rank(lens, r, i) <= Rank(lens, s, i)
  {
    if r < s {
      RankMonotone(lens, r, s - 1, i);
    }
  }

  lemma {:induction false} BelowMonotone(lens: seq<nat>, r: nat, i: nat, j: nat)
    requires r <= |lens| && i <= j
    ensures Below(lens, r, i) <= Below(lens, r, j)
  {
    if r > 0 {
      BelowMonotone(lens, r - 1, i, j);
    }
  }

  /** Two different entries never share a position. */
  lemma PositionsDistinct(lens: seq<nat>, r: nat, i: nat, s: nat, j: nat)
    requires r < |lens| && i < lens[r] && s < |lens| && j < lens[s]
    requires Position(lens, r, i) == Position(lens, s, j)
    ensures r == s && i == j
  {
    if i < j {
      PositionBeforeRow(lens, r, i, j);
    } else if j < i {
      PositionBeforeRow(lens, s, j, i);
    } else if r < s {
      RankMonotone(lens, r + 1, s, i);
    } else if s < r {
      RankMonotone(lens, s + 1, r, i);
    }
  }

  lemma PositionBeforeRow(lens: seq<nat>, r: nat, i: nat, j: nat)
    requires r < |lens| && i < lens[r] && i < j
    ensures Position(lens, r, i) < Below(lens, |lens|, j)
  {
    RankMonotone(lens, r + 1, |lens|, i);
    BelowStep(lens, |lens|, i);
    BelowMonotone(lens, |lens|, i + 1, j);
  }

  /** Every position below the total belongs to some entry. */
  lemma {:induction false} PositionUsed(lens: seq<nat>, n: nat, p: nat) returns (r: nat, i: nat)
    requires p < Below(lens, |lens|, n)
    ensures r < |lens| && i < lens[r] && i < n && Position(lens, r, i) == p
  {
    CoveredZero(lens, |lens|);
    if p < Below(lens, |lens|, n - 1) {
      r, i := PositionUsed(lens, n - 1, p);
    } else {
      BelowStep(lens, |lens|, n - 1);
      i := n - 1;
      r := RankUsed(lens, |lens|, i, p - Below(lens, |lens|, i));
    }
  }

  lemma {:induction false} RankUsed(lens: seq<nat>, s: nat, i: nat, k: nat) returns (r: nat)
    requires s <= |lens| && k < Rank(lens, s, i)
    ensures r < s && i < lens[r] && Rank(lens, r, i) == k
  {
    if k < Rank(lens, s - 1, i) {
      r := RankUsed(lens, s - 1, i, k);
    } else {
      r := s - 1;
    }
  }

  /** Block r read back from the interleaved sequence, given only the lengths. */
  function Deinterleaved<T>(data: seq<T>, lens: seq<nat>, r: nat): seq<T>
    requires r < |lens|
    requires forall i :: 0 <= i < lens[r] ==> Position(lens, r, i) < |data|
  {
    seq(lens[r], i requires 0 <= i < lens[r] => data[Position(lens, r, i)])
  }

  /** De-interleaving recovers every block. */
  lemma DeinterleaveRecovers<T>(blocks: seq<seq<T>>, n: nat, r: nat)
    requires Covers(Lengths(blocks), n) && r < |blocks|
    ensures |Columns(blocks, n)| == Total(Lengths(blocks), |blocks|)
    ensures forall i :: 0 <= i < |blocks[r]| ==> Position(Lengths(blocks), r, i) < |Columns(blocks, n)|
    ensures Deinterleaved(Columns(blocks, n), Lengths(blocks), r) == blocks[r]
  {
    ColumnsLength(blocks, n);
    CoveredTotal(Lengths(blocks), |blocks|, n);
    assert Lengths(blocks)[r] == |blocks[r]| <= n;
    forall i | 0 <= i < |blocks[r]|
      ensures Position(Lengths(blocks), r, i) < |Columns(blocks, n)|
              && Columns(blocks, n)[Position(Lengths(blocks), r, i)] == blocks[r][i]
    {
      ColumnsEntry(blocks, n, r, i);
    }
  }
}
