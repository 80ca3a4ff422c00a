/**
 The data codewords: segments in byte mode, terminator and padding, the choice of the version,
 and a reader of the bit stream that recovers the segments.
 */
module DataEncoding {
  import opened Wrappers
  import opened BitBuffer
  import opened Utf8
  import opened BlockTable

  type Segment = seq<Octet>

  /** Width of the character count as the program computes it. */
  function CountBits(typeNumber: int): nat {
    if 1 <= typeNumber < 10 then 8 else 16
  }

  /** Width of the byte-mode character count in the standard (section 7.4.1), for versions up to 26. */
  function CountWidth(version: nat): nat {
    match version
    case 1 => 8 case 2 => 8 case 3 => 8 case 4 => 8 case 5 => 8 case 6 => 8 case 7 => 8 case 8 => 8 case 9 => 8
    case _ => 16
  }

  lemma CountIsStandard(typeNumber: int)
    requires 1 <= typeNumber <= 26
    ensures CountBits(typeNumber) == CountWidth(typeNumber)
  {
  }

  function OctetBits(bytes: seq<Octet>): (r: seq<bool>)
    ensures |r| == 8 * |bytes|
  {
    if bytes == [] then [] else BitsOf(bytes[0], 8) + OctetBits(bytes[1..])
  }

  /** Mode 4, character count, bytes. */
  function SegmentBits(s: Segment, width: nat): seq<bool> {
    BitsOf(4, 4) + BitsOf(|s|, width) + OctetBits(s)
  }

  function StreamBits(list: seq<Segment>, width: nat): seq<bool> {
    if list == [] then [] else SegmentBits(list[0], width) + StreamBits(list[1..], width)
  }

  function Falses(n: nat): (r: seq<bool>)
    ensures |r| == n
  {
    seq(n, i => false)
  }

  /** n padding bytes, alternating 0xEC and 0x11. */
  function PadBits(n: nat, first: bool): (r: seq<bool>)
    ensures |r| == 8 * n
  {
    if n == 0 then [] else BitsOf(if first then 0xec else 0x11, 8) + PadBits(n - 1, !first)
  }

  /** Bits missing to the next byte boundary. */
  function Gap(n: nat): (r: nat)
    ensures r < 8
    ensures r == 0 <==> n % 8 == 0
  {
    if n % 8 == 0 then 0 else 8 - n % 8
  }

  lemma GapStep(n: nat)
    ensures n % 8 != 0 ==> Gap(n + 1) == Gap(n) - 1
  {
  }

  /** Zeros up to the next byte boundary. */
  function Align(bits: seq<bool>): (r: seq<bool>)
    ensures |r| == |bits| + Gap(|bits|) && |r| % 8 == 0
    ensures r[..|bits|] == bits
    decreases Gap(|bits|)
  {
    if |bits| % 8 == 0 then bits
    else
      GapStep(|bits|);
      var r := Align(bits + [false]);
      assert r[..|bits|] == r[..|bits| + 1][..|bits|];
      r
  }

  /** Terminator (if four bits are left) and zeros to the byte boundary. */
  function Terminated(bits: seq<bool>, total: nat): (r: seq<bool>)
    requires |bits| <= 8 * total
    ensures |r| % 8 == 0 && |bits| <= |r| <= 8 * total
    ensures r[..|bits|] == bits
  {
    var t := if |bits| + 4 <= 8 * total then bits + Falses(4) else bits;
    var r := Align(t);
    assert r[..|bits|] == r[..|t|][..|bits|];
    r
  }

  function Padded(bits: seq<bool>, total: nat): (r: seq<bool>)
    requires |bits| <= 8 * total
    ensures |r| == 8 * total
  {
    var t := Terminated(bits, total);
    t + PadBits(total - |t| / 8, true)
  }

  // ----- Writing -----

  method WriteSegment(buffer: QRBitBuffer, s: Segment, width: nat)
    requires buffer.Valid()
    modifies buffer
    ensures buffer.Valid() && buffer.Contents() == old(buffer.Contents()) + SegmentBits(s, width)
  {
    hide BitsOf;
    buffer.Put(4, 4);
    buffer.Put(|s|, width);
    ghost var head := buffer.Contents();
    assert s[0..] == s;
    for i := 0 to |s|
      invariant buffer.Valid()
      invariant head + OctetBits(s) == buffer.Contents() + OctetBits(s[i..])
    {
      assert s[i..][1..] == s[i + 1..];
      buffer.Put(s[i], 8);
    }
    assert buffer.Contents() + [] == buffer.Contents();
  }

  method WriteStream(buffer: QRBitBuffer, list: seq<Segment>, width: nat)
    requires buffer.Valid()
    modifies buffer
    ensures buffer.Valid() && buffer.Contents() == old(buffer.Contents()) + StreamBits(list, width)
  {
    hide SegmentBits;
    assert list[0..] == list;
    ghost var head := buffer.Contents();
    for i := 0 to |list|
      invariant buffer.Valid()
      invariant head + StreamBits(list, width) == buffer.Contents() + StreamBits(list[i..], width)
    {
      assert list[i..][1..] == list[i + 1..];
      WriteSegment(buffer, list[i], width);
    }
  }

  /** The part of `createData` before the blocks: throws exactly when the segments do not fit. */
  method FillBuffer(typeNumber: int, totalDataCount: nat, list: seq<Segment>) returns (r: Result<QRBitBuffer>)
    ensures r.Throws? <==> |StreamBits(list, CountBits(typeNumber))| > 8 * totalDataCount
    ensures r.Ok? ==> fresh(r.value) && r.value.Valid() && r.value.length == 8 * totalDataCount
                      && r.value.Contents() == Padded(StreamBits(list, CountBits(typeNumber)), totalDataCount)
    ensures r.Ok? && list != [] && 1 <= typeNumber <= 9 ==> StartsWith(r.value.Contents(), |list[0]|, 8)
    ensures r.Ok? && list != [] && typeNumber == 10 ==> StartsWith(r.value.Contents(), |list[0]|, 16)
  {
    FirstSegment(typeNumber, list, totalDataCount);
    hide BitsOf, StreamBits, StartsWith, CountBits, PadBits, Align, Terminated, Padded;
    var buffer := new QRBitBuffer();
    WriteStream(buffer, list, CountBits(typeNumber));
    ghost var bits := StreamBits(list, CountBits(typeNumber));
    assert buffer.Contents() == [] + bits == bits;
    if buffer.length > totalDataCount * 8 {
      return Throws;
    }
    PaddedParts(bits, totalDataCount);
    Terminate(buffer, totalDataCount);
    Pad(buffer, totalDataCount);
    r := Ok(buffer);
  }

  lemma PaddedParts(bits: seq<bool>, total: nat)
    requires |bits| <= 8 * total
    ensures var t := Terminated(bits, total); Padded(bits, total) == t + PadBits(total - |t| / 8, true)
  {
  }

  /** The stream starts with mode 4 and the given count in so many bits. */
  predicate StartsWith(bits: seq<bool>, count: nat, width: nat) {
    |bits| >= 4 + width && bits[..4] == [false, true, false, false] && bits[4..4 + width] == BitsOf(count, width)
  }

  lemma StreamStarts(list: seq<Segment>, width: nat, total: nat)
    requires list != []
    ensures |StreamBits(list, width)| <= 8 * total ==>
              StartsWith(Padded(StreamBits(list, width), total), |list[0]|, width)
  {
    var bits := StreamBits(list, width);
    if |bits| <= 8 * total {
      PaddingEnds(bits, total);
      ModeBits();
      hide *;
      assert bits <= Padded(bits, total);
      HeadStarts(list, width, Padded(bits, total));
    }
  }

  lemma HeadStarts(list: seq<Segment>, width: nat, p: seq<bool>)
    requires list != [] && StreamBits(list, width) <= p
    ensures StartsWith(p, |list[0]|, width)
  {
    ModeBits();
    hide BitsOf, OctetBits;
    var mode, count := BitsOf(4, 4), BitsOf(|list[0]|, width);
    var rest := OctetBits(list[0]) + StreamBits(list[1..], width);
    assert StreamBits(list, width) == mode + count + rest;
    hide StreamBits;
    Parts(mode, count, rest, p[4 + width + |rest|..]);
    assert p == mode + count + rest + p[4 + width + |rest|..];
  }

  lemma Parts(a: seq<bool>, b: seq<bool>, c: seq<bool>, d: seq<bool>)
    ensures (a + b + c + d)[..|a|] == a && (a + b + c + d)[|a|..|a| + |b|] == b
  {
  }

  /** So the count of the first segment has 8 bits in versions 1 to 9 and 16 in version 10. */
  lemma FirstSegment(typeNumber: int, list: seq<Segment>, total: nat)
    ensures var bits := StreamBits(list, CountBits(typeNumber));
            list != [] && |bits| <= 8 * total ==>
              && (1 <= typeNumber <= 9 ==> StartsWith(Padded(bits, total), |list[0]|, 8))
              && (typeNumber == 10 ==> StartsWith(Padded(bits, total), |list[0]|, 16))
  {
    if list != [] {
      StreamStarts(list, CountBits(typeNumber), total);
    }
    hide StartsWith, StreamBits, Padded;
  }

  lemma ModeBits()
    ensures BitsOf(4, 4) == [false, true, false, false]
  {
    assert BitsOf(4, 4) == BitsOf(2, 3) + [false] == BitsOf(1, 2) + [false] + [false];
    assert BitsOf(1, 2) == BitsOf(0, 1) + [true] && BitsOf(0, 1) == [] + [false];
  }

  /** The bits of a list of segments: four for the mode, the count, eight for each byte. */
  function StreamSize(list: seq<Segment>, width: nat): nat {
    if list == [] then 0 else StreamSize(list[..|list| - 1], width) + 4 + width + 8 * |list[|list| - 1]|
  }

  lemma {:induction false} StreamConcat(a: seq<Segment>, b: seq<Segment>, width: nat)
    ensures StreamBits(a + b, width) == StreamBits(a, width) + StreamBits(b, width)
  {
    hide SegmentBits;
    if a == [] {
      assert a + b == b;
    } else {
      assert (a + b)[1..] == a[1..] + b;
      StreamConcat(a[1..], b, width);
    }
  }

  lemma {:induction false} StreamHasSize(list: seq<Segment>, width: nat)
    ensures |StreamBits(list, width)| == StreamSize(list, width)
  {
    hide BitsOf;
    if list != [] {
      var front, last := list[..|list| - 1], list[|list| - 1];
      StreamHasSize(front, width);
      StreamConcat(front, [last], width);
      assert list == front + [last];
      assert StreamBits([last], width) == SegmentBits(last, width) + StreamBits([], width);
    }
  }

  /** The size of the stream the program writes for a version. */
  lemma StreamNeeds(typeNumber: int, list: seq<Segment>)
    requires 1 <= typeNumber <= 10
    ensures |StreamBits(list, CountBits(typeNumber))| == StreamSize(list, CountWidth(typeNumber))
  {
    CountIsStandard(typeNumber);
    StreamHasSize(list, CountBits(typeNumber));
  }

  lemma AlignStep(bits: seq<bool>)
    ensures |bits| % 8 != 0 ==> Align(bits) == Align(bits + [false])
    ensures |bits| % 8 == 0 ==> Align(bits) == bits
  {
  }

  method AlignBuffer(buffer: QRBitBuffer)
    requires buffer.Valid()
    modifies buffer
    ensures buffer.Valid() && buffer.Contents() == Align(old(buffer.Contents()))
  {
    hide Align, Gap;
    while buffer.length % 8 != 0
      invariant buffer.Valid() && Align(buffer.Contents()) == Align(old(buffer.Contents()))
      decreases Gap(buffer.length)
    {
      AlignStep(buffer.Contents());
      GapStep(buffer.length);
      buffer.PutBit(false);
    }
    AlignStep(buffer.Contents());
  }

  method Terminate(buffer: QRBitBuffer, totalDataCount: nat)
    requires buffer.Valid() && buffer.length <= 8 * totalDataCount
    modifies buffer
    ensures buffer.Valid() && buffer.Contents() == Terminated(old(buffer.Contents()), totalDataCount)
  {
    ZeroBits(4);
    hide Align, BitsOf;
    if buffer.length + 4 <= totalDataCount * 8 {
      buffer.Put(0, 4);
    }
    AlignBuffer(buffer);
  }

  method Pad(buffer: QRBitBuffer, totalDataCount: nat)
    requires buffer.Valid() && buffer.length <= 8 * totalDataCount && buffer.length % 8 == 0
    modifies buffer
    ensures buffer.Valid()
    ensures buffer.Contents() == old(buffer.Contents()) + PadBits(totalDataCount - old(buffer.length) / 8, true)
  {
    PadEnds(true);
    hide BitsOf, PadBits;
    ghost var before := buffer.Contents();
    ghost var left := totalDataCount - buffer.length / 8;
    ghost var n := left;
    while true
      invariant buffer.Valid() && buffer.length + 8 * left == 8 * totalDataCount && left >= 0
      invariant before + PadBits(n, true) == buffer.Contents() + PadBits(left, true)
      decreases left
    {
      PadEnds(true);
      PadEnds(false);
      if buffer.length >= totalDataCount * 8 {
        break;
      }
      PadStep(left, true);
      buffer.Put(0xec, 8);
      left := left - 1;
      if buffer.length >= totalDataCount * 8 {
        break;
      }
      PadStep(left, false);
      buffer.Put(0x11, 8);
      left := left - 1;
    }
  }

  lemma PadStep(n: nat, first: bool)
    requires n > 0
    ensures PadBits(n, first) == BitsOf(if first then 0xec else 0x11, 8) + PadBits(n - 1, !first)
  {
  }

  lemma PadEnds(first: bool)
    ensures PadBits(0, first) == []
  {
  }

  lemma {:induction false} ZeroBits(n: nat)
    ensures BitsOf(0, n) == Falses(n)
  {
    if n > 0 {
      ZeroBits(n - 1);
    }
  }

  // ----- Reading -----

  /** n bytes from the front of a bit stream. */
  function ReadOctets(bits: seq<bool>, n: nat): seq<Octet>
    requires |bits| >= 8 * n
  {
    if n == 0 then []
    else
      OctetBound(bits[..8]);
      [FromBits(bits[..8])] + ReadOctets(bits[8..], n - 1)
  }

  lemma OctetBound(bits: seq<bool>)
    requires |bits| == 8
    ensures FromBits(bits) < 0x100
  {
    SmallPow2();
    FromBitsBound(bits);
  }

  /**
   The byte-mode segments of a bit stream, ended by mode 0 or by fewer than four bits; None for
   any other mode or for a segment cut short.
   */
  function ReadSegments(bits: seq<bool>, width: nat): Option<seq<Segment>>
    decreases |bits|
  {
    if |bits| < 4 || FromBits(bits[..4]) == 0 then Some([])
    else if FromBits(bits[..4]) != 4 || |bits| < 4 + width then None
    else
      var n := FromBits(bits[4..4 + width]);
      var body := bits[4 + width..];
      if |body| < 8 * n then None
      else match ReadSegments(body[8 * n..], width)
        case None => None
        case Some(rest) => Some([ReadOctets(body, n)] + rest)
  }

  lemma {:induction false} ReadOctetBits(s: seq<Octet>, rest: seq<bool>)
    ensures ReadOctets(OctetBits(s) + rest, |s|) == s
  {
    hide BitsOf, FromBits;
    if s != [] {
      var bits := OctetBits(s) + rest;
      SmallPow2();
      FromBitsOf(s[0], 8);
      assert bits[..8] == BitsOf(s[0], 8);
      assert bits[8..] == OctetBits(s[1..]) + rest;
      ReadOctetBits(s[1..], rest);
    }
  }

  lemma SmallPow2()
    ensures Pow2(4) == 16 && Pow2(8) == 0x100
    ensures Pow2(16) == 0x10000
  {
  }

  /** A stream that a reader takes as ended. */
  predicate EndsHere(tail: seq<bool>) {
    |tail| < 4 || tail[..4] == Falses(4)
  }

  /** Reading one segment off the front. */
  lemma ReadOne(s: Segment, width: nat, rest: seq<bool>)
    requires |s| < Pow2(width)
    ensures ReadSegments(SegmentBits(s, width) + rest, width)
            == match ReadSegments(rest, width) { case None => None case Some(r) => Some([s] + r) }
  {
    SmallPow2();
    hide BitsOf, FromBits, OctetBits, Pow2;
    var bits := SegmentBits(s, width) + rest;
    var n := |s|;
    assert bits[..4] == BitsOf(4, 4);
    assert bits[4..4 + width] == BitsOf(n, width);
    var body := bits[4 + width..];
    assert body == OctetBits(s) + rest;
    assert body[8 * n..] == rest;
    FromBitsOf(4, 4);
    FromBitsOf(n, width);
    ReadOctetBits(s, rest);
  }

  lemma ReadEnd(tail: seq<bool>, width: nat)
    requires EndsHere(tail)
    ensures ReadSegments(tail, width) == Some([])
  {
    SmallPow2();
    hide FromBits, BitsOf, Pow2;
    ZeroBits(4);
    FromBitsOf(0, 4);
  }

  /** The reader recovers every segment whose length the count field can hold. */
  lemma {:induction false} ReadStream(list: seq<Segment>, width: nat, tail: seq<bool>)
    requires forall s :: s in list ==> |s| < Pow2(width)
    requires EndsHere(tail)
    ensures ReadSegments(StreamBits(list, width) + tail, width) == Some(list)
  {
    hide SegmentBits, ReadSegments, Pow2, EndsHere;
    if list == [] {
      assert StreamBits(list, width) + tail == tail;
      ReadEnd(tail, width);
    } else {
      var s, rest := list[0], StreamBits(list[1..], width) + tail;
      ReadStream(list[1..], width, tail);
      ReadOne(s, width, rest);
      assert StreamBits(list, width) + tail == SegmentBits(s, width) + rest;
      assert list == [s] + list[1..];
    }
  }

  /**
   The stream is followed by zeros up to a byte, at least four and at most eleven of them if four fit
   into the symbol, and then by padding bytes.
   */
  lemma PaddedIs(bits: seq<bool>, total: nat)
    requires |bits| <= 8 * total
    ensures var zeros := |Terminated(bits, total)| - |bits|;
            && (|bits| + zeros) % 8 == 0 && |bits| + zeros <= 8 * total
            && (if |bits| + 4 <= 8 * total then 4 <= zeros < 12 else zeros < 8)
            && Padded(bits, total) == bits + Falses(zeros) + PadBits(total - (|bits| + zeros) / 8, true)
  {
    var fits := |bits| + 4 <= 8 * total;
    var t := if fits then bits + Falses(4) else bits;
    AlignIs(t);
    hide Align, PadBits;
    assert fits ==> bits + Falses(4) + Falses(Gap(|t|)) == bits + Falses(4 + Gap(|t|));
  }

  lemma {:induction false} AlignIs(bits: seq<bool>)
    ensures Align(bits) == bits + Falses(Gap(|bits|))
    decreases Gap(|bits|)
  {
    if |bits| % 8 == 0 {
      assert bits + Falses(0) == bits;
    } else {
      GapStep(|bits|);
      AlignIs(bits + [false]);
      assert bits + [false] + Falses(Gap(|bits|) - 1) == bits + Falses(Gap(|bits|));
    }
  }

  /** Whatever follows the segments in the padded stream ends the reading. */
  lemma PaddingEnds(bits: seq<bool>, total: nat)
    requires |bits| <= 8 * total
    ensures Padded(bits, total)[..|bits|] == bits
    ensures EndsHere(Padded(bits, total)[|bits|..])
  {
  }

  /** A segment that fits the symbol fits its count field. */
  lemma {:induction false} StreamLength(list: seq<Segment>, width: nat, s: Segment)
    requires s in list
    ensures 8 * |s| + 4 + width <= |StreamBits(list, width)|
  {
    if s != list[0] {
      StreamLength(list[1..], width, s);
    }
  }

  /** What `createData` writes decodes to the segments it was given, for every version and level. */
  lemma DataRoundTrip(typeNumber: int, level: Level, list: seq<Segment>)
    requires 1 <= typeNumber <= 10
    ensures GetRsBlockTable(typeNumber, level).Some?
    ensures var total := TotalData(Expand(GetRsBlockTable(typeNumber, level).value));
            var bits := StreamBits(list, CountBits(typeNumber));
            |bits| <= 8 * total ==> ReadSegments(Padded(bits, total), CountWidth(typeNumber)) == Some(list)
  {
    BlocksFacts(typeNumber, level);
    CountIsStandard(typeNumber);
    hide *;
    var total := TotalData(Expand(GetRsBlockTable(typeNumber, level).value));
    var width := CountBits(typeNumber);
    var bits := StreamBits(list, width);
    if |bits| <= 8 * total {
      CountFits(typeNumber, total, list);
      PaddedRoundTrip(total, width, list);
    }
  }

  lemma PaddedRoundTrip(total: nat, width: nat, list: seq<Segment>)
    requires |StreamBits(list, width)| <= 8 * total
    requires forall s :: s in list ==> |s| < Pow2(width)
    ensures ReadSegments(Padded(StreamBits(list, width), total), width) == Some(list)
  {
    hide *;
    var bits := StreamBits(list, width);
    var p := Padded(bits, total);
    PaddingEnds(bits, total);
    ReadStream(list, width, p[|bits|..]);
    assert p == bits + p[|bits|..];
  }

  lemma CountFits(typeNumber: int, total: nat, list: seq<Segment>)
    requires 1 <= typeNumber <= 10 && total <= (if typeNumber < 10 then 232 else 274)
    requires |StreamBits(list, CountBits(typeNumber))| <= 8 * total
    ensures forall s :: s in list ==> |s| < Pow2(CountBits(typeNumber))
  {
    SmallPow2();
    hide StreamBits, Pow2;
    forall s | s in list ensures |s| < Pow2(CountBits(typeNumber)) {
      StreamLength(list, CountBits(typeNumber), s);
    }
  }

  /** The last padding bytes alternate, starting with 0xEC. */
  lemma {:induction false} PaddingAlternates(n: nat, first: bool, i: nat)
    requires i < n
    ensures PadBits(n, first)[8 * i..8 * i + 8] == BitsOf(if first == (i % 2 == 0) then 0xec else 0x11, 8)
  {
    hide BitsOf;
    var rest := PadBits(n - 1, !first);
    if i > 0 {
      PaddingAlternates(n - 1, !first, i - 1);
      assert PadBits(n, first)[8 * i..8 * i + 8] == rest[8 * (i - 1)..8 * (i - 1) + 8];
    }
  }

  // ----- Choosing the version -----

  /** The segments fit the data codewords of the version. */
  ghost predicate Fits(typeNumber: int, level: Level, list: seq<Segment>)
    requires 1 <= typeNumber <= 10 && GetRsBlockTable(typeNumber, level).Some?
  {
    StreamSize(list, CountWidth(typeNumber)) <= 8 * TotalData(Expand(GetRsBlockTable(typeNumber, level).value))
  }

  method SumDataCounts(blocks: seq<RSBlock>) returns (totalDataCount: nat)
    ensures totalDataCount == TotalData(blocks)
  {
    totalDataCount := 0;
    for i := 0 to |blocks|
      invariant totalDataCount == TotalData(blocks[..i])
    {
      assert blocks[..i + 1][..i] == blocks[..i];
      totalDataCount := totalDataCount + blocks[i].dataCount;
    }
    assert blocks[..|blocks|] == blocks;
  }

  /** The search of `make`: the smallest version below 10 that fits, else 10 whether it fits or not. */
  method ChooseVersion(level: Level, list: seq<Segment>) returns (typeNumber: int)
    ensures 1 <= typeNumber <= 10
    ensures forall t :: 1 <= t < typeNumber ==> GetRsBlockTable(t, level).Some? && !Fits(t, level, list)
    ensures typeNumber < 10 ==> GetRsBlockTable(typeNumber, level).Some? && Fits(typeNumber, level, list)
  {
    hide StreamBits, GetRsBlockTable, Expand, TotalData, StreamSize;
    typeNumber := 1;
    while typeNumber < 10
      invariant 1 <= typeNumber <= 10
      invariant forall t :: 1 <= t < typeNumber ==> GetRsBlockTable(t, level).Some? && !Fits(t, level, list)
    {
      BlocksFacts(typeNumber, level);
      var rsBlocks := GetRSBlocks(typeNumber, level);
      var buffer := new QRBitBuffer();
      var totalDataCount := SumDataCounts(rsBlocks.value);
      WriteStream(buffer, list, CountBits(typeNumber));
      StreamNeeds(typeNumber, list);
      if buffer.length <= totalDataCount * 8 {
        break;
      }
      typeNumber := typeNumber + 1;
    }
  }
}
