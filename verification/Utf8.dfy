/**
 The bytes the encoder writes for a text, one UTF-16 code unit at a time, against a decoder of
 UTF-8 as RFC 3629 defines it (sections 3 and 4).
 */
module Utf8 {
  import opened Wrappers

  type CodeUnit = c: int | 0 <= c < 0x10000
  type Octet = b: int | 0 <= b < 0x100

  /**
   The bytes of one code unit. The four-byte branch of the program is not modelled: it needs a
   unit above 0x10000. The comparisons are strict in the program.
   */
  function EncodeUnit(code: CodeUnit): (r: seq<Octet>)
    ensures 1 <= |r| <= 3
  {
    if code > 0x800 then
      [0xe0 + code / 0x1000, 0x80 + (code / 0x40) % 0x40, 0x80 + code % 0x40]
    else if code > 0x80 then
      [0xc0 + (code / 0x40) % 0x20, 0x80 + code % 0x40]
    else [code]
  }

  function Encode(text: seq<CodeUnit>): seq<Octet> {
    if text == [] then [] else EncodeUnit(text[0]) + Encode(text[1..])
  }

  method QR8BitByte(data: seq<CodeUnit>) returns (parsedData: seq<Octet>)
    ensures parsedData == Encode(data)
  {
    parsedData := [];
    assert data[0..] == data;
    for i := 0 to |data|
      invariant Encode(data) == parsedData + Encode(data[i..])
    {
      assert data[i..][1..] == data[i + 1..];
      parsedData := parsedData + EncodeUnit(data[i]);
    }
  }

  // ----- UTF-8 -----

  predicate IsSurrogate(c: int) {
    0xd800 <= c < 0xe000
  }

  predicate Tail(b: Octet) {
    0x80 <= b < 0xc0
  }

  /** The six payload bits of a continuation byte. */
  function Low(b: Octet): int {
    b as int - 0x80
  }

  /** The first code point of a byte sequence and its length, or None if it is not UTF-8. */
  function DecodeFirst(b: seq<Octet>): (r: Option<(int, nat)>)
    requires b != []
    ensures r.Some? ==> 1 <= r.value.1 <= |b|
  {
    var b0: int := b[0];
    if b0 < 0x80 then Some((b0, 1))
    else if 0xc2 <= b0 < 0xe0 && |b| >= 2 && Tail(b[1]) then
      Some(((b0 - 0xc0) * 0x40 + Low(b[1]), 2))
    else if 0xe0 <= b0 < 0xf0 && |b| >= 3 && Tail(b[1]) && Tail(b[2])
            && (b0 == 0xe0 ==> b[1] >= 0xa0) && (b0 == 0xed ==> b[1] < 0xa0) then
      Some(((b0 - 0xe0) * 0x1000 + Low(b[1]) * 0x40 + Low(b[2]), 3))
    else if 0xf0 <= b0 < 0xf5 && |b| >= 4 && Tail(b[1]) && Tail(b[2]) && Tail(b[3])
            && (b0 == 0xf0 ==> b[1] >= 0x90) && (b0 == 0xf4 ==> b[1] < 0x90) then
      Some(((b0 - 0xf0) * 0x40000 + Low(b[1]) * 0x1000 + Low(b[2]) * 0x40 + Low(b[3]), 4))
    else None
  }

  /** The code points of a byte sequence, or None if it is not UTF-8. */
  function Decode(b: seq<Octet>): Option<seq<int>>
    decreases |b|
  {
    if b == [] then Some([])
    else match DecodeFirst(b)
      case None => None
      case Some(first) =>
        match Decode(b[first.1..])
        case None => None
        case Some(rest) => Some([first.0] + rest)
  }

  // ----- When the program's bytes are UTF-8 -----

  /** The units the program encodes correctly. */
  predicate Encodable(c: CodeUnit) {
    c != 0x80 && c != 0x800 && !IsSurrogate(c)
  }

  lemma DecodeThree(hi: int, mid: int, lo: int, rest: seq<Octet>)
    requires 0 <= hi < 0x10 && 0 <= mid < 0x40 && 0 <= lo < 0x40
    requires hi * 0x1000 + mid * 0x40 + lo > 0x800
    ensures var c := hi * 0x1000 + mid * 0x40 + lo;
            DecodeFirst([0xe0 + hi, 0x80 + mid, 0x80 + lo] + rest)
            == if IsSurrogate(c) then None else Some((c, 3))
  {
  }

  lemma DecodeTwo(hi: int, lo: int, rest: seq<Octet>)
    requires 0 <= hi < 0x20 && 0 <= lo < 0x40
    ensures DecodeFirst([0xc0 + hi, 0x80 + lo] + rest)
            == if hi < 2 then None else Some((hi * 0x40 + lo, 2))
  {
  }

  lemma DecodeUnit(c: CodeUnit, rest: seq<Octet>)
    ensures DecodeFirst(EncodeUnit(c) + rest) == if Encodable(c) then Some((c, |EncodeUnit(c)|)) else None
  {
    var hi, mid, lo := c / 0x1000, (c / 0x40) % 0x40, c % 0x40;
    if c > 0x800 {
      assert c == hi * 0x1000 + mid * 0x40 + lo;
      hide DecodeFirst;
      DecodeThree(hi, mid, lo, rest);
    } else if c > 0x80 {
      hide DecodeFirst;
      DecodeTwo((c / 0x40) % 0x20, lo, rest);
    }
  }

  /**
   A decoder gets the text back exactly when no code unit is 0x80, 0x800 or a surrogate; any
   other text is written as bytes that are not UTF-8.
   */
  lemma {:induction false} Utf8RoundTrip(text: seq<CodeUnit>)
    ensures (forall c :: c in text ==> Encodable(c)) ==> Decode(Encode(text)) == Some(text)
    ensures (exists c :: c in text && !Encodable(c)) ==> Decode(Encode(text)) == None
  {
    if text != [] {
      var c, rest := text[0], Encode(text[1..]);
      Utf8RoundTrip(text[1..]);
      DecodeUnit(c, rest);
      assert (EncodeUnit(c) + rest)[|EncodeUnit(c)|..] == rest;
      assert text == [c] + text[1..];
      hide EncodeUnit, DecodeFirst, Encodable;
    }
  }
}
