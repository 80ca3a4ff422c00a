/** Big-endian bits of numbers and bytes, and the growing bit buffer of the encoder. */
module BitBuffer {

  function Pow2(n: nat): (r: nat)
    ensures r >= 1
  {
    if n == 0 then 1 else 2 * Pow2(n - 1)
  }

  /** The lowest `length` binary digits of num, most significant first. */
  function BitsOf(num: nat, length: nat): (r: seq<bool>)
    ensures |r| == length
  {
    if length == 0 then [] else BitsOf(num / 2, length - 1) + [num % 2 == 1]
  }

  /** The number written by a sequence of binary digits. */
  function FromBits(s: seq<bool>): nat {
    if s == [] then 0 else 2 * FromBits(s[..|s| - 1]) + (if s[|s| - 1] then 1 else 0)
  }

  lemma {:induction false} FromBitsOf(num: nat, length: nat)
    requires num < Pow2(length)
    ensures FromBits(BitsOf(num, length)) == num
  {
    if length > 0 {
      FromBitsOf(num / 2, length - 1);
      assert BitsOf(num, length)[..length - 1] == BitsOf(num / 2, length - 1);
    }
  }

  lemma {:induction false} FromBitsBound(s: seq<bool>)
    ensures FromBits(s) < Pow2(|s|)
  {
    if s != [] {
      FromBitsBound(s[..|s| - 1]);
    }
  }

  /** num shifted right by k bits. */
  function ShiftRight(num: nat, k: nat): nat {
    if k == 0 then num else ShiftRight(num / 2, k - 1)
  }

  /** The bit `put` reads at step i. */
  lemma {:induction false} BitOfNumber(num: nat, length: nat, i: nat)
    requires i < length
    ensures BitsOf(num, length)[i] == (ShiftRight(num, length - i - 1) % 2 == 1)
  {
    if i < length - 1 {
      BitOfNumber(num / 2, length - 1, i);
    }
  }

  /** The byte with only bit k set, counted from the most significant. */
  function Mask(k: nat): bv8
    requires k < 8
  {
    0x80 >> k
  }

  predicate BitAt(b: bv8, k: nat)
    requires k < 8
  {
    b & Mask(k) != 0
  }

  function SetBit(b: bv8, k: nat): bv8
    requires k < 8
  {
    b | Mask(k)
  }

  lemma MasksDisjoint(j: nat, k: nat)
    requires j < 8 && k < 8
    ensures Mask(k) != 0
    ensures j != k ==> Mask(j) & Mask(k) == 0
  {
  }

  lemma MaskedOr(b: bv8, m: bv8, n: bv8)
    ensures m & n == 0 ==> (b | n) & m == b & m
    ensures (b | n) & n == n
    ensures 0 & m == 0
  {
  }

  lemma BitAtSet(b: bv8, k: nat, j: nat)
    requires k < 8 && j < 8
    ensures BitAt(SetBit(b, k), j) == (j == k || BitAt(b, j))
    ensures !BitAt(0, j)
  {
    hide Mask;
    MasksDisjoint(j, k);
    MaskedOr(b, Mask(j), Mask(k));
  }

  /** The bits of a sequence of bytes. */
  function BitsOfBytes(bytes: seq<bv8>): (r: seq<bool>)
    ensures |r| == 8 * |bytes|
  {
    seq(8 * |bytes|, i requires 0 <= i < 8 * |bytes| => BitAt(bytes[i / 8], i % 8))
  }

  class QRBitBuffer {
    var buffer: seq<bv8>
    var length: nat

    /** Enough bytes for the bits, and the unused bits of the last byte are clear. */
    ghost predicate Valid()
      reads this
    {
      && length <= 8 * |buffer| < length + 8
      && forall i :: length <= i < 8 * |buffer| ==> !BitsOfBytes(buffer)[i]
    }

    ghost function Contents(): (s: seq<bool>)
      requires Valid()
      reads this
      ensures |s| == length
    {
      BitsOfBytes(buffer)[..length]
    }

    constructor ()
      ensures Valid() && Contents() == []
    {
      buffer := [];
      length := 0;
    }

    method PutBit(bit: bool)
      requires Valid()
      modifies this
      ensures Valid() && Contents() == old(Contents()) + [bit]
    {
      hide BitAt, SetBit;
      ghost var bits := Contents();
      var bufIndex := length / 8;
      if |buffer| <= bufIndex {
        buffer := buffer + [0];
        BitAtZero();
      }
      assert forall i :: length <= i < 8 * |buffer| ==> !BitsOfBytes(buffer)[i];
      assert BitsOfBytes(buffer)[..length] == bits;
      if bit {
        SetBitOfBytes(buffer, length);
        buffer := buffer[bufIndex := SetBit(buffer[bufIndex], length % 8)];
      }
      length := length + 1;
    }

    method Put(num: nat, count: nat)
      requires Valid()
      modifies this
      ensures Valid() && Contents() == old(Contents()) + BitsOf(num, count)
    {
      var all := BitsOf(num, count);
      for i := 0 to count
        invariant Valid() && Contents() == old(Contents()) + all[..i]
      {
        BitOfNumber(num, count, i);
        PutBit(ShiftRight(num, count - i - 1) % 2 == 1);
      }
      assert all[..count] == all;
    }
  }

  lemma BitAtZero()
    ensures forall k :: 0 <= k < 8 ==> !BitAt(0, k)
  {
  }

  /** Setting one bit of a byte sequence changes that bit only. */
  lemma SetBitOfBytes(bytes: seq<bv8>, n: nat)
    requires n < 8 * |bytes|
    ensures BitsOfBytes(bytes[n / 8 := SetBit(bytes[n / 8], n % 8)]) == BitsOfBytes(bytes)[n := true]
  {
    var after := bytes[n / 8 := SetBit(bytes[n / 8], n % 8)];
    hide SetBit, BitAt;
    forall i | 0 <= i < 8 * |bytes| ensures BitsOfBytes(after)[i] == BitsOfBytes(bytes)[n := true][i] {
      BitAtSet(bytes[n / 8], n % 8, i % 8);
    }
  }
}
