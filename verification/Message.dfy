/**
 The final message: the padded data is cut into blocks, each block gets its error-correction
 bytes, and both are interleaved.
 */
module Message {
  import opened Wrappers
  import opened GaloisTables
  import opened GeneratorPolynomial
  import opened PolynomialAlgebra
  import opened ReedSolomon
  import opened BitBuffer
  import opened Utf8
  import opened BlockTable
  import opened DataEncoding
  import opened Interleaving
  import ErrorCorrection

  /** Byte k of the buffer; 0 where the buffer has none. */
  function ByteAt(buffer: seq<bv8>, k: nat): bv8 {
    if k < |buffer| then buffer[k] else 0
  }

  /** The data bytes of one block, starting at `offset`. */
  function DataBlock(buffer: seq<bv8>, offset: nat, count: nat): (r: seq<bv8>)
    ensures |r| == count
  {
    seq(count, i requires 0 <= i < count => ByteAt(buffer, offset + i))
  }

  function DataBlocks(buffer: seq<bv8>, blocks: seq<RSBlock>): (r: seq<seq<bv8>>)
    ensures |r| == |blocks|
  {
    seq(|blocks|, r requires 0 <= r < |blocks| =>
      DataBlock(buffer, TotalData(blocks[..r]), blocks[r].dataCount))
  }

  function EcCount(b: RSBlock): int {
    b.totalCount - b.dataCount
  }

  /** No block has fewer codewords than data codewords. */
  predicate Countable(blocks: seq<RSBlock>) {
    forall r :: 0 <= r < |blocks| ==> EcCount(blocks[r]) >= 0
  }

  /** Block lists with a generator polynomial for every block. */
  predicate Codable(blocks: seq<RSBlock>) {
    forall r :: 0 <= r < |blocks| ==> 0 <= EcCount(blocks[r]) <= 254
  }

  /** The error-correction codewords of one block; nothing is assigned where the generator is missing. */
  ghost function EcBlock(data: seq<bv8>, n: nat): (ec: seq<Coeff>)
    ensures |ec| == n
  {
    if n <= 254 then ErrorBytes(data, n) else Undefined(n)
  }

  /** The program does not throw for a block: its generator is there, or, at length 255, never used. */
  predicate Encodes(data: seq<bv8>, n: nat) {
    n <= 254 || (n == 255 && AllZero(data))
  }

  predicate AllEncode(buffer: seq<bv8>, blocks: seq<RSBlock>)
    requires Countable(blocks)
  {
    forall r :: 0 <= r < |blocks| ==> Encodes(DataBlocks(buffer, blocks)[r], EcCount(blocks[r]))
  }

  /** The data codewords, block by block. */
  function Dc(buffer: seq<bv8>, blocks: seq<RSBlock>): (r: seq<seq<Coeff>>)
    ensures |r| == |blocks|
  {
    seq(|blocks|, r requires 0 <= r < |blocks| => Defined(DataBlocks(buffer, blocks)[r]))
  }

  /** The error-correction codewords, block by block. */
  ghost function Ec(buffer: seq<bv8>, blocks: seq<RSBlock>): (r: seq<seq<Coeff>>)
    requires Countable(blocks)
    ensures |r| == |blocks|
  {
    seq(|blocks|, r requires 0 <= r < |blocks| =>
      EcBlock(DataBlocks(buffer, blocks)[r], EcCount(blocks[r])))
  }

  /** All codewords in their final order. */
  ghost function Codewords(buffer: seq<bv8>, blocks: seq<RSBlock>): seq<Coeff>
    requires Countable(blocks)
  {
    var dc, ec := Dc(buffer, blocks), Ec(buffer, blocks);
    Columns(dc, MaxLength(dc)) + Columns(ec, MaxLength(ec))
  }

  // ----- The loops of createBytes -----

  method ReadBlock(buffer: seq<bv8>, offset: nat, dcCount: nat) returns (r: seq<bv8>)
    ensures r == DataBlock(buffer, offset, dcCount)
    ensures |r| == dcCount
            && forall i :: 0 <= i < dcCount ==> r[i] == if offset + i < |buffer| then buffer[offset + i] else 0
  {
    r := [];
    for i := 0 to dcCount
      invariant r == DataBlock(buffer, offset, i)
    {
      assert DataBlock(buffer, offset, i + 1) == DataBlock(buffer, offset, i) + [ByteAt(buffer, offset + i)];
      r := r + [if i + offset < |buffer| then buffer[i + offset] else 0];
    }
    assert forall i :: 0 <= i < dcCount ==> r[i] == DataBlock(buffer, offset, dcCount)[i] == ByteAt(buffer, offset + i);
  }

  method CreateBytes(math: QRMath, buffer: seq<bv8>, rsBlocks: seq<RSBlock>) returns (r: Result<seq<Coeff>>)
    requires math.Valid()
    requires Countable(rsBlocks)
    ensures r == if AllEncode(buffer, rsBlocks) then Ok(Codewords(buffer, rsBlocks)) else Throws
  {
    hide Dc, Ec, Column, Columns, AllEncode, MaxLength;
    var ok, dcdata, ecdata, maxDcCount, maxEcCount := CreateBlocks(math, buffer, rsBlocks);
    if !ok {
      return Throws;
    }
    BlockTotals(buffer, rsBlocks);
    var totalCodeCount := SumTotalCounts(rsBlocks);
    var data := new Coeff[totalCodeCount](i => None);
    var index := Interleave(dcdata, maxDcCount, data, 0);
    var middle := index;
    ghost var first := data[0..middle];
    index := Interleave(ecdata, maxEcCount, data, middle);
    assert data[0..middle] == first;
    assert data[..] == data[0..middle] + data[middle..index];
    r := Ok(data[..]);
  }

  /** The first loop: data and error-correction bytes of every block, and the longest of each. */
  method CreateBlocks(math: QRMath, buffer: seq<bv8>, rsBlocks: seq<RSBlock>)
    returns (ok: bool, dcdata: seq<seq<Coeff>>, ecdata: seq<seq<Coeff>>, maxDcCount: nat, maxEcCount: nat)
    requires math.Valid()
    requires Countable(rsBlocks)
    ensures ok <==> AllEncode(buffer, rsBlocks)
    ensures ok ==> dcdata == Dc(buffer, rsBlocks) && ecdata == Ec(buffer, rsBlocks)
    ensures ok ==> maxDcCount == MaxLength(dcdata) && maxEcCount == MaxLength(ecdata)
  {
    hide Dc, Ec, ErrorBytes, DataBlock, DataBlocks, AllZero, MaxLength, TotalData;
    var offset := 0;
    maxDcCount, maxEcCount := 0, 0;
    dcdata, ecdata := [], [];
    NoBlocks();
    assert rsBlocks[..0] == [];
    for i := 0 to |rsBlocks|
      invariant offset == TotalData(rsBlocks[..i])
      invariant dcdata == Dc(buffer, rsBlocks)[..i] && ecdata == Ec(buffer, rsBlocks)[..i]
      invariant maxDcCount == MaxLength(dcdata) && maxEcCount == MaxLength(ecdata)
      invariant forall r :: 0 <= r < i ==> Encodes(DataBlocks(buffer, rsBlocks)[r], EcCount(rsBlocks[r]))
    {
      TakeOne(rsBlocks, i);
      BlockEntry(buffer, rsBlocks, i);
      var block := rsBlocks[i];
      var ecCount := block.totalCount - block.dataCount;
      maxDcCount := if maxDcCount < block.dataCount then block.dataCount else maxDcCount;
      maxEcCount := if maxEcCount < ecCount then ecCount else maxEcCount;
      var data := ReadBlock(buffer, offset, block.dataCount);
      offset := offset + block.dataCount;
      var errors := EncodeBlock(math, data, ecCount);
      if errors.Throws? {
        ok := false;
        return;
      }
      MaxOfPush(dcdata, Defined(data));
      MaxOfPush(ecdata, errors.value);
      dcdata := dcdata + [Defined(data)];
      ecdata := ecdata + [errors.value];
    }
    ok := true;
    assert dcdata == Dc(buffer, rsBlocks) && ecdata == Ec(buffer, rsBlocks);
  }

  lemma NoBlocks()
    ensures MaxLength<Coeff>([]) == 0 && TotalData([]) == 0
  {
  }

  lemma BlockEntry(buffer: seq<bv8>, blocks: seq<RSBlock>, i: nat)
    requires Countable(blocks) && i < |blocks|
    ensures var data := DataBlock(buffer, TotalData(blocks[..i]), blocks[i].dataCount);
            && DataBlocks(buffer, blocks)[i] == data && Dc(buffer, blocks)[i] == Defined(data)
            && Ec(buffer, blocks)[i] == EcBlock(data, EcCount(blocks[i]))
  {
    hide ErrorBytes, DataBlock;
  }

  method SumTotalCounts(blocks: seq<RSBlock>) returns (n: nat)
    ensures n == TotalCode(blocks)
  {
    n := 0;
    for i := 0 to |blocks|
      invariant n == TotalCode(blocks[..i])
    {
      assert blocks[..i + 1][..i] == blocks[..i];
      n := n + blocks[i].totalCount;
    }
    assert blocks[..|blocks|] == blocks;
  }

  lemma TakeOne(blocks: seq<RSBlock>, i: nat)
    requires i < |blocks|
    ensures TotalData(blocks[..i + 1]) == TotalData(blocks[..i]) + blocks[i].dataCount
    ensures TotalCode(blocks[..i + 1]) == TotalCode(blocks[..i]) + blocks[i].totalCount
  {
    assert blocks[..i + 1][..i] == blocks[..i];
  }

  lemma MaxOfPush<T>(blocks: seq<seq<T>>, b: seq<T>)
    ensures MaxLength(blocks + [b]) == if MaxLength(blocks) < |b| then |b| else MaxLength(blocks)
  {
    assert (blocks + [b])[..|blocks|] == blocks;
  }

  /** The two parts of the message have the sizes of their tables. */
  lemma BlockTotals(buffer: seq<bv8>, blocks: seq<RSBlock>)
    requires Countable(blocks)
    ensures Total(Lengths(Dc(buffer, blocks)), |blocks|) == TotalData(blocks)
    ensures Total(Lengths(Dc(buffer, blocks)), |blocks|) + Total(Lengths(Ec(buffer, blocks)), |blocks|)
            == TotalCode(blocks)
  {
    hide ErrorBytes, DataBlock;
    PartialTotals(buffer, blocks, |blocks|);
    assert blocks[..|blocks|] == blocks;
  }

  lemma {:induction false} PartialTotals(buffer: seq<bv8>, blocks: seq<RSBlock>, n: nat)
    requires Countable(blocks) && n <= |blocks|
    ensures Total(Lengths(Dc(buffer, blocks)), n) == TotalData(blocks[..n])
    ensures Total(Lengths(Dc(buffer, blocks)), n) + Total(Lengths(Ec(buffer, blocks)), n) == TotalCode(blocks[..n])
  {
    hide ErrorBytes, DataBlock;
    if n > 0 {
      PartialTotals(buffer, blocks, n - 1);
      TakeOne(blocks, n - 1);
    }
  }

  // ----- Reading the message back -----

  function DataLengths(blocks: seq<RSBlock>): (lens: seq<nat>)
    ensures |lens| == |blocks|
  {
    seq(|blocks|, r requires 0 <= r < |blocks| => blocks[r].dataCount)
  }

  function EcLengths(blocks: seq<RSBlock>): (lens: seq<nat>)
    requires Countable(blocks)
    ensures |lens| == |blocks|
  {
    seq(|blocks|, r requires 0 <= r < |blocks| => EcCount(blocks[r]))
  }

  /** Block r of an interleaved part that starts at `start`. */
  function Received(msg: seq<bv8>, start: nat, lens: seq<nat>, r: nat): (b: seq<bv8>)
    requires r < |lens|
    ensures |b| == lens[r]
  {
    seq(lens[r], i requires 0 <= i < lens[r] => ByteAt(msg, start + Position(lens, r, i)))
  }

  function ReceivedData(msg: seq<bv8>, blocks: seq<RSBlock>, r: nat): (b: seq<bv8>)
    requires r < |blocks|
    ensures |b| == blocks[r].dataCount
  {
    Received(msg, 0, DataLengths(blocks), r)
  }

  function ReceivedEc(msg: seq<bv8>, blocks: seq<RSBlock>, r: nat): (b: seq<bv8>)
    requires Countable(blocks) && r < |blocks|
    ensures |b| == EcCount(blocks[r])
  {
    Received(msg, TotalData(blocks), EcLengths(blocks), r)
  }

  /** The data bytes of the first n blocks of a received message. */
  function ReceivedBytes(msg: seq<bv8>, blocks: seq<RSBlock>, n: nat): seq<bv8>
    requires n <= |blocks|
  {
    if n == 0 then [] else ReceivedBytes(msg, blocks, n - 1) + ReceivedData(msg, blocks, n - 1)
  }

  /**
   What a reader expects of a message: every block is a Reed-Solomon codeword and the data bytes,
   block after block, are the buffer.
   */
  ghost predicate IsMessage(msg: seq<bv8>, buffer: seq<bv8>, blocks: seq<RSBlock>)
    requires Countable(blocks)
  {
    && |msg| == TotalCode(blocks)
    && ReceivedBytes(msg, blocks, |blocks|) == buffer
    && forall r :: 0 <= r < |blocks| ==> IsCodeword(msg, blocks, r)
  }

  /** Block r of a message is a multiple of the generator for its error-correction bytes. */
  ghost predicate IsCodeword(msg: seq<bv8>, blocks: seq<RSBlock>, r: nat)
    requires Countable(blocks) && r < |blocks|
  {
    IsMultiple(ReceivedData(msg, blocks, r) + ReceivedEc(msg, blocks, r), Generator(EcCount(blocks[r])))
  }

  lemma {:induction false} PartReadBack(before: seq<Coeff>, parts: seq<seq<Coeff>>, after: seq<Coeff>, r: nat)
    requires r < |parts|
    ensures Received(Vals(before + Columns(parts, MaxLength(parts)) + after), |before|, Lengths(parts), r)
            == Vals(parts[r])
  {
    hide Columns, MaxLength, Position, Covers;
    var max := MaxLength(parts);
    DeinterleaveRecovers(parts, max, r);
    var msg, lens := Vals(before + Columns(parts, max) + after), Lengths(parts);
    forall i | 0 <= i < lens[r] ensures Received(msg, |before|, lens, r)[i] == Vals(parts[r])[i] {
      var p := Position(lens, r, i);
      assert (before + Columns(parts, max) + after)[|before| + p] == Columns(parts, max)[p];
      assert parts[r][i] == Deinterleaved(Columns(parts, max), lens, r)[i];
    }
  }

  lemma BlockLengths(buffer: seq<bv8>, blocks: seq<RSBlock>)
    requires Countable(blocks)
    ensures Lengths(Dc(buffer, blocks)) == DataLengths(blocks)
    ensures Lengths(Ec(buffer, blocks)) == EcLengths(blocks)
  {
    hide ErrorBytes, DataBlock;
  }

  lemma CodewordsLength(buffer: seq<bv8>, blocks: seq<RSBlock>)
    requires Countable(blocks)
    ensures var dc, ec := Dc(buffer, blocks), Ec(buffer, blocks);
            |Columns(dc, MaxLength(dc))| == TotalData(blocks)
    ensures |Codewords(buffer, blocks)| == TotalCode(blocks)
  {
    hide Dc, Ec, Columns, MaxLength, Total, TotalData, TotalCode;
    var dc, ec := Dc(buffer, blocks), Ec(buffer, blocks);
    BlockTotals(buffer, blocks);
    ColumnsTotal(dc);
    ColumnsTotal(ec);
  }

  lemma ColumnsTotal<T>(blocks: seq<seq<T>>)
    ensures |Columns(blocks, MaxLength(blocks))| == Total(Lengths(blocks), |blocks|)
  {
    hide *;
    ColumnsLength(blocks, MaxLength(blocks));
    CoveredTotal(Lengths(blocks), |blocks|, MaxLength(blocks));
  }

  /** De-interleaving the final message gives every data block and its error-correction bytes. */
  lemma MessageReadBack(buffer: seq<bv8>, blocks: seq<RSBlock>, r: nat)
    requires Codable(blocks) && r < |blocks|
    ensures var msg := Vals(Codewords(buffer, blocks));
            && ReceivedData(msg, blocks, r) == DataBlocks(buffer, blocks)[r]
            && ReceivedEc(msg, blocks, r) == Vals(ErrorBytes(DataBlocks(buffer, blocks)[r], EcCount(blocks[r])))
  {
    hide ErrorBytes, DataBlock, DataBlocks, Received, Columns, MaxLength, Dc, Ec;
    var dc, ec := Dc(buffer, blocks), Ec(buffer, blocks);
    var first, second := Columns(dc, MaxLength(dc)), Columns(ec, MaxLength(ec));
    CodewordsLength(buffer, blocks);
    BlockLengths(buffer, blocks);
    PartReadBack([], dc, second, r);
    PartReadBack(first, ec, [], r);
    assert [] + first + second == first + second;
    assert first + second + [] == first + second;
    EntryOf(buffer, blocks, r);
  }

  lemma EntryOf(buffer: seq<bv8>, blocks: seq<RSBlock>, r: nat)
    requires Codable(blocks) && r < |blocks|
    ensures Vals(Dc(buffer, blocks)[r]) == DataBlocks(buffer, blocks)[r]
    ensures Ec(buffer, blocks)[r] == ErrorBytes(DataBlocks(buffer, blocks)[r], EcCount(blocks[r]))
  {
    hide ErrorBytes, DataBlock;
  }

  /** Putting the data blocks one after the other restores the buffer. */
  lemma {:induction false} BytesReadBack(buffer: seq<bv8>, blocks: seq<RSBlock>, n: nat)
    requires Codable(blocks) && n <= |blocks|
    ensures ReceivedBytes(Vals(Codewords(buffer, blocks)), blocks, n) == DataBlock(buffer, 0, TotalData(blocks[..n]))
  {
    hide Codewords, Received;
    if n == 0 {
      NoBlocks();
      assert blocks[..0] == [];
    } else {
      BytesReadBack(buffer, blocks, n - 1);
      MessageReadBack(buffer, blocks, n - 1);
      TakeOne(blocks, n - 1);
    }
  }

  /** The codewords of a full buffer are a message for it. */
  lemma CodewordsAreMessage(buffer: seq<bv8>, blocks: seq<RSBlock>)
    requires Codable(blocks) && |buffer| == TotalData(blocks)
    ensures IsMessage(Vals(Codewords(buffer, blocks)), buffer, blocks)
  {
    hide Codewords, ReceivedBytes, ReceivedData, ReceivedEc, IsMultiple, Generator, ErrorBytes, DataBlocks;
    CodewordsLength(buffer, blocks);
    BytesReadBack(buffer, blocks, |blocks|);
    assert blocks[..|blocks|] == blocks;
    forall r | 0 <= r < |blocks| ensures IsCodeword(Vals(Codewords(buffer, blocks)), blocks, r) {
      MessageReadBack(buffer, blocks, r);
      CodewordDivisible(DataBlocks(buffer, blocks)[r], EcCount(blocks[r]));
    }
  }

  // ----- No other message says the same -----

  lemma {:induction false} TotalMonotone(lens: seq<nat>, r: nat, s: nat)
    requires r <= s <= |lens|
    ensures Total(lens, r) <= Total(lens, s)
  {
    if r < s {
      TotalMonotone(lens, r, s - 1);
    }
  }

  /** Every byte of an interleaved part belongs to some block. */
  lemma PartCovered(lens: seq<nat>, p: nat) returns (r: nat, i: nat)
    requires p < Total(lens, |lens|)
    ensures r < |lens| && i < lens[r] && Position(lens, r, i) == p
  {
    var n := Total(lens, |lens|);
    forall r | 0 <= r < |lens| ensures lens[r] <= n {
      TotalMonotone(lens, r + 1, |lens|);
    }
    CoveredTotal(lens, |lens|, n);
    r, i := PositionUsed(lens, n, p);
  }

  lemma LengthTotals(blocks: seq<RSBlock>)
    requires Countable(blocks)
    ensures Total(DataLengths(blocks), |blocks|) == TotalData(blocks)
    ensures Total(EcLengths(blocks), |blocks|) == TotalCode(blocks) - TotalData(blocks)
  {
    hide Dc, Ec;
    BlockTotals([], blocks);
    BlockLengths([], blocks);
  }

  lemma {:induction false} SameBlocks(a: seq<bv8>, b: seq<bv8>, blocks: seq<RSBlock>, n: nat, r: nat)
    requires r < n <= |blocks|
    requires ReceivedBytes(a, blocks, n) == ReceivedBytes(b, blocks, n)
    ensures ReceivedData(a, blocks, r) == ReceivedData(b, blocks, r)
  {
    hide Received;
    var x, y := ReceivedBytes(a, blocks, n), ReceivedBytes(b, blocks, n);
    BytesLength(a, b, blocks, n - 1);
    var k := |ReceivedBytes(a, blocks, n - 1)|;
    assert x[..k] == ReceivedBytes(a, blocks, n - 1) && x[k..] == ReceivedData(a, blocks, n - 1);
    assert y[..k] == ReceivedBytes(b, blocks, n - 1) && y[k..] == ReceivedData(b, blocks, n - 1);
    if r < n - 1 {
      SameBlocks(a, b, blocks, n - 1, r);
    }
  }

  lemma {:induction false} BytesLength(a: seq<bv8>, b: seq<bv8>, blocks: seq<RSBlock>, n: nat)
    requires n <= |blocks|
    ensures |ReceivedBytes(a, blocks, n)| == |ReceivedBytes(b, blocks, n)|
  {
    hide ReceivedData;
    if n > 0 {
      BytesLength(a, b, blocks, n - 1);
    }
  }

  /** The buffer determines the message. */
  lemma MessageUnique(a: seq<bv8>, b: seq<bv8>, buffer: seq<bv8>, blocks: seq<RSBlock>)
    requires Codable(blocks)
    requires IsMessage(a, buffer, blocks) && IsMessage(b, buffer, blocks)
    ensures a == b
  {
    hide Received, ReceivedBytes, IsMultiple, Generator, DataLengths, EcLengths, Total, TotalData, TotalCode, Position;
    LengthTotals(blocks);
    forall k | 0 <= k < |a| ensures a[k] == b[k] {
      if k < TotalData(blocks) {
        var r, i := PartCovered(DataLengths(blocks), k);
        SameBlocks(a, b, blocks, |blocks|, r);
        ReceivedAt(a, 0, DataLengths(blocks), r, i);
        ReceivedAt(b, 0, DataLengths(blocks), r, i);
      } else {
        var r, i := PartCovered(EcLengths(blocks), k - TotalData(blocks));
        assert IsCodeword(a, blocks, r) && IsCodeword(b, blocks, r);
        SameBlocks(a, b, blocks, |blocks|, r);
        ErrorBytesUnique(ReceivedData(a, blocks, r), EcCount(blocks[r]), ReceivedEc(a, blocks, r));
        ErrorBytesUnique(ReceivedData(b, blocks, r), EcCount(blocks[r]), ReceivedEc(b, blocks, r));
        ReceivedAt(a, TotalData(blocks), EcLengths(blocks), r, i);
        ReceivedAt(b, TotalData(blocks), EcLengths(blocks), r, i);
      }
    }
  }

  lemma ReceivedAt(msg: seq<bv8>, start: nat, lens: seq<nat>, r: nat, i: nat)
    requires r < |lens| && i < lens[r] && start + Position(lens, r, i) < |msg|
    ensures Received(msg, start, lens, r)[i] == msg[start + Position(lens, r, i)]
  {
  }

  // ----- Damage -----

  /** Block r of a message: its data and error-correction bytes. */
  function Block(msg: seq<bv8>, blocks: seq<RSBlock>, r: nat): (b: seq<bv8>)
    requires Countable(blocks) && r < |blocks|
    ensures |b| == blocks[r].totalCount
  {
    ReceivedData(msg, blocks, r) + ReceivedEc(msg, blocks, r)
  }

  /** No block has more wrong bytes than half its error-correction bytes. */
  ghost predicate Correctable(msg: seq<bv8>, seen: seq<bv8>, blocks: seq<RSBlock>)
    requires Countable(blocks)
  {
    forall r :: 0 <= r < |blocks| ==>
      2 * ErrorCorrection.Differences(Block(msg, blocks, r), Block(seen, blocks, r)) <= EcCount(blocks[r])
  }

  /** A message read with that much damage could have been no other message. */
  lemma DamageIsCorrectable(msg: seq<bv8>, buffer: seq<bv8>, other: seq<bv8>, otherBuffer: seq<bv8>,
                            seen: seq<bv8>, blocks: seq<RSBlock>)
    requires Codable(blocks) && forall r :: 0 <= r < |blocks| ==> blocks[r].totalCount <= 255
    requires IsMessage(msg, buffer, blocks) && IsMessage(other, otherBuffer, blocks)
    requires forall r :: 0 <= r < |blocks| ==>
               && 2 * ErrorCorrection.Differences(Block(msg, blocks, r), Block(seen, blocks, r)) <= EcCount(blocks[r])
               && 2 * ErrorCorrection.Differences(Block(other, blocks, r), Block(seen, blocks, r)) <= EcCount(blocks[r])
    ensures msg == other && buffer == otherBuffer
  {
    hide ReceivedData, ReceivedEc, ReceivedBytes, IsMultiple, Generator, TotalCode, ErrorCorrection.Differences;
    forall r | 0 <= r < |blocks| ensures ReceivedData(msg, blocks, r) == ReceivedData(other, blocks, r) {
      var n, a, b := EcCount(blocks[r]), Block(msg, blocks, r), Block(other, blocks, r);
      assert IsCodeword(msg, blocks, r) && IsCodeword(other, blocks, r);
      assert 2 * ErrorCorrection.Differences(a, Block(seen, blocks, r)) <= n;
      assert 2 * ErrorCorrection.Differences(b, Block(seen, blocks, r)) <= n;
      ErrorCorrection.UniqueDecoding(a, b, Block(seen, blocks, r), n);
      var d := blocks[r].dataCount;
      assert a[..d] == ReceivedData(msg, blocks, r) && b[..d] == ReceivedData(other, blocks, r);
    }
    SameBytes(msg, other, blocks, |blocks|);
    MessageUnique(msg, other, buffer, blocks);
  }

  lemma {:induction false} SameBytes(a: seq<bv8>, b: seq<bv8>, blocks: seq<RSBlock>, n: nat)
    requires n <= |blocks|
    requires forall r :: 0 <= r < |blocks| ==> ReceivedData(a, blocks, r) == ReceivedData(b, blocks, r)
    ensures ReceivedBytes(a, blocks, n) == ReceivedBytes(b, blocks, n)
  {
    hide ReceivedData;
    if n > 0 {
      SameBytes(a, b, blocks, n - 1);
    }
  }

  // ----- From the text to the message and back -----

  lemma TableRange(typeNumber: int, level: Level)
    ensures GetRsBlockTable(typeNumber, level).Some? <==> 1 <= typeNumber <= 10
  {
  }

  /** The blocks of a supported version. */
  function BlocksOf(typeNumber: int, level: Level): (blocks: seq<RSBlock>)
    requires 1 <= typeNumber <= 10
    ensures GoodBlocks(blocks) && Codable(blocks) && GetRsBlockTable(typeNumber, level) != None
  {
    BlocksFacts(typeNumber, level);
    Expand(GetRsBlockTable(typeNumber, level).value)
  }

  /** The message carries the segments: its data bytes are the padded bit stream, and every block is a codeword. */
  ghost predicate Carries(msg: seq<bv8>, typeNumber: int, level: Level, list: seq<Segment>)
    requires 1 <= typeNumber <= 10
  {
    var blocks, bits := BlocksOf(typeNumber, level), StreamBits(list, CountWidth(typeNumber));
    var buffer := ReceivedBytes(msg, blocks, |blocks|);
    && |bits| <= 8 * TotalData(blocks)
    && BitsOfBytes(buffer) == Padded(bits, TotalData(blocks))
    && IsMessage(msg, buffer, blocks)
  }

  /** Throws exactly for an unknown version or an overflow; otherwise the result carries the segments. */
  method CreateData(math: QRMath, typeNumber: int, level: Level, dataList: seq<Segment>) returns (r: Result<seq<Coeff>>)
    requires math.Valid()
    ensures r.Ok? <==> 1 <= typeNumber <= 10
                       && |StreamBits(dataList, CountWidth(typeNumber))| <= 8 * TotalData(BlocksOf(typeNumber, level))
    ensures r.Ok? ==> Carries(Vals(r.value), typeNumber, level, dataList)
  {
    TableRange(typeNumber, level);
    hide Codewords, ReceivedBytes, IsMessage, StreamBits, Padded, BitsOfBytes, TotalData, Expand, GetRsBlockTable,
        GoodBlocks;
    var rsBlocks := GetRSBlocks(typeNumber, level);
    if rsBlocks.Throws? {
      return Throws;
    }
    assert rsBlocks.value == BlocksOf(typeNumber, level);
    var totalDataCount := SumDataCounts(rsBlocks.value);
    var buffer := FillBuffer(typeNumber, totalDataCount, dataList);
    if buffer.Throws? {
      return Throws;
    }
    FullBuffer(buffer.value);
    r := CreateBytes(math, buffer.value.buffer, rsBlocks.value);
    CodewordsAreMessage(buffer.value.buffer, rsBlocks.value);
    MessageBuffer(Vals(r.value), buffer.value.buffer, rsBlocks.value);
  }

  lemma MessageBuffer(msg: seq<bv8>, buffer: seq<bv8>, blocks: seq<RSBlock>)
    requires Countable(blocks) && IsMessage(msg, buffer, blocks)
    ensures ReceivedBytes(msg, blocks, |blocks|) == buffer
  {
  }

  /** A buffer of whole bytes holds exactly its bits. */
  lemma FullBuffer(buffer: QRBitBuffer)
    requires buffer.Valid() && buffer.length % 8 == 0
    ensures 8 * |buffer.buffer| == buffer.length
    ensures buffer.Contents() == BitsOfBytes(buffer.buffer)
  {
  }

  /** Each segment read as text. */
  function Readings(list: seq<Segment>): (r: seq<Option<seq<int>>>)
    ensures |r| == |list|
  {
    seq(|list|, i requires 0 <= i < |list| => Decode(list[i]))
  }

  /** The reader of a message: the texts of its segments, in order. */
  ghost function ReadTexts(msg: seq<bv8>, typeNumber: int, level: Level): Option<seq<Option<seq<int>>>>
    requires 1 <= typeNumber <= 10
  {
    var blocks := BlocksOf(typeNumber, level);
    match ReadSegments(BitsOfBytes(ReceivedBytes(msg, blocks, |blocks|)), CountWidth(typeNumber))
    case Some(list) => Some(Readings(list))
    case None => None
  }

  function EncodeAll(texts: seq<seq<CodeUnit>>): (r: seq<Segment>)
    ensures |r| == |texts|
  {
    seq(|texts|, i requires 0 <= i < |texts| => Encode(texts[i]))
  }

  predicate AllEncodable(text: seq<CodeUnit>) {
    forall c :: c in text ==> Encodable(c)
  }

  /** What a reader makes of texts written by the encoder: those with an excluded code unit are unreadable. */
  function Readable(texts: seq<seq<CodeUnit>>): (r: seq<Option<seq<int>>>)
    ensures |r| == |texts|
  {
    seq(|texts|, i requires 0 <= i < |texts| => if AllEncodable(texts[i]) then Some(texts[i]) else None)
  }

  /** The segments of a message that carries some are read back as they are. */
  lemma SegmentsReadBack(msg: seq<bv8>, typeNumber: int, level: Level, list: seq<Segment>)
    requires 1 <= typeNumber <= 10 && Carries(msg, typeNumber, level, list)
    ensures var blocks := BlocksOf(typeNumber, level);
            ReadSegments(BitsOfBytes(ReceivedBytes(msg, blocks, |blocks|)), CountWidth(typeNumber)) == Some(list)
  {
    hide ReadSegments, StreamBits, BitsOfBytes, ReceivedBytes, IsMessage, Padded, GoodBlocks;
    DataRoundTrip(typeNumber, level, list);
  }

  /**
   Whatever message carries some texts is read as those texts, in order; a text is unreadable
   exactly when it has a code unit 0x80, 0x800 or a surrogate.
   */
  lemma TextsReadBack(msg: seq<bv8>, typeNumber: int, level: Level, list: seq<Segment>,
                      texts: seq<seq<CodeUnit>>)
    requires 1 <= typeNumber <= 10 && Carries(msg, typeNumber, level, list)
    requires list == EncodeAll(texts)
    ensures ReadTexts(msg, typeNumber, level) == Some(Readable(texts))
  {
    SegmentsReadBack(msg, typeNumber, level, list);
    hide Carries, Encode, Decode, Encodable, ReadSegments, BitsOfBytes, ReceivedBytes;
    forall i | 0 <= i < |texts| ensures Readings(list)[i] == Readable(texts)[i] {
      Utf8RoundTrip(texts[i]);
    }
    assert Readings(list) == Readable(texts);
  }

  /** Two lists carried by the same message are the same. */
  lemma CarriedOnce(msg: seq<bv8>, typeNumber: int, level: Level, a: seq<Segment>, b: seq<Segment>)
    requires 1 <= typeNumber <= 10 && Carries(msg, typeNumber, level, a) && Carries(msg, typeNumber, level, b)
    ensures a == b
  {
    hide Carries, ReadSegments, BitsOfBytes, ReceivedBytes;
    SegmentsReadBack(msg, typeNumber, level, a);
    SegmentsReadBack(msg, typeNumber, level, b);
  }

  /** Two messages a damaged one could have been are the same, and carry the same segments. */
  lemma DamagedCarriesOnce(msg: seq<bv8>, other: seq<bv8>, seen: seq<bv8>,
                           typeNumber: int, level: Level, a: seq<Segment>, b: seq<Segment>)
    requires 1 <= typeNumber <= 10 && Carries(msg, typeNumber, level, a) && Carries(other, typeNumber, level, b)
    requires Correctable(msg, seen, BlocksOf(typeNumber, level))
             && Correctable(other, seen, BlocksOf(typeNumber, level))
    ensures msg == other && a == b
  {
    var blocks := BlocksOf(typeNumber, level);
    hide IsMessage, Correctable, BitsOfBytes, ReceivedBytes, StreamBits, Padded;
    DamageIsCorrectable(msg, ReceivedBytes(msg, blocks, |blocks|), other, ReceivedBytes(other, blocks, |blocks|),
        seen, blocks);
    hide Carries;
    CarriedOnce(msg, typeNumber, level, a, b);
  }
}
