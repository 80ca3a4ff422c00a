/**
 The exponent and logarithm tables of the encoder, filled by the same loops and recurrence as
 the program, and the two look-ups on them.
 */
module GaloisTables {
  import opened Wrappers
  import opened GaloisField

  lemma FirstPowers()
    ensures Exp(0) == 1 && Exp(1) == 2 && Exp(2) == 4 && Exp(3) == 8
    ensures Exp(4) == 16 && Exp(5) == 32 && Exp(6) == 64 && Exp(7) == 128
  {
  }

  /** x^8 = x^4 + x^3 + x^2 + 1 in the field. */
  lemma DefiningRelation()
    ensures Exp(8) == Add(Add(Add(Exp(4), Exp(3)), Exp(2)), Exp(0))
  {
  }

  lemma MulAddLeft4(a: bv8, b: bv8, c: bv8, d: bv8, e: bv8)
    ensures Mul(Add(Add(Add(a, b), c), d), e) == Add(Add(Add(Mul(a, e), Mul(b, e)), Mul(c, e)), Mul(d, e))
  {
    hide *;
    MulAddLeft(a, b, e);
    MulAddLeft(Add(a, b), c, e);
    MulAddLeft(Add(Add(a, b), c), d, e);
  }

  /** x^8 = x^4 + x^3 + x^2 + 1, multiplied by x^n. */
  lemma {:induction false} ExpRecurrence(n: nat, n2: nat, n3: nat, n4: nat, n8: nat)
    requires n2 == n + 2 && n3 == n + 3 && n4 == n + 4 && n8 == n + 8
    ensures Exp(n8) == Add(Add(Add(Exp(n4), Exp(n3)), Exp(n2)), Exp(n))
  {
    hide *;
    MulExp(2, n, n2);
    MulExp(3, n, n3);
    MulExp(4, n, n4);
    MulExp(8, n, n8);
    MulExp(0, n, n);
    MulAddLeft4(Exp(4), Exp(3), Exp(2), Exp(0), Exp(n));
    DefiningRelation();
  }

  lemma SmallPower(i: nat)
    requires i < 8
    ensures Exp(i) == (1 as bv8) << i
  {
    FirstPowers();
    hide Exp;
    match i {
      case 0 =>
      case 1 =>
      case 2 =>
      case 3 =>
      case 4 =>
      case 5 =>
      case 6 =>
      case _ => assert i == 7;
    }
  }

  /** EXP_TABLE: eight shifts of 1, then the recurrence. */
  method BuildExpTable() returns (table: array<bv8>)
    ensures fresh(table) && table.Length == 256
    ensures forall k :: 0 <= k < 256 ==> table[k] == Exp(k)
  {
    hide Exp;
    table := new bv8[256];
    for i := 0 to 8
      invariant forall k :: 0 <= k < i ==> table[k] == Exp(k)
    {
      SmallPower(i);
      table[i] := (1 as bv8) << i;
    }
    for i := 8 to 256
      invariant forall k :: 0 <= k < i ==> table[k] == Exp(k)
    {
      ExpRecurrence(i - 8, i - 6, i - 5, i - 4, i);
      table[i] := table[i - 4] ^ table[i - 5] ^ table[i - 6] ^ table[i - 8];
    }
  }

  /** The table after i turns: the bytes with a logarithm below i have it. */
  ghost predicate PartialLog(t: seq<Option<nat>>, i: nat) {
    && |t| == 256
    && t[0] == None
    && forall b: bv8 {:trigger Log(b)} :: b != 0 && Log(b) < i ==> t[b as int] == Some(Log(b))
  }

  lemma {:induction false} PartialLogStep(t: seq<Option<nat>>, i: nat)
    requires i < 255 && PartialLog(t, i)
    ensures PartialLog(t[Exp(i) as int := Some(i)], i + 1)
  {
    hide Exp;
    LogExp(i);
    var e := Exp(i);
    ByteAsInt(e, 0);
    forall b: bv8 | b != 0 && Log(b) < i + 1 ensures t[e as int := Some(i)][b as int] == Some(Log(b)) {
      ByteAsInt(b, e);
      assert Exp(Log(b)) == b;
    }
  }

  lemma PartialLogEnds(t: seq<Option<nat>>)
    requires PartialLog(t, 255)
    ensures IsLogTable(t)
  {
  }

  /** LOG_TABLE: entry EXP_TABLE[i] becomes i; entry 0 is never written. */
  method BuildLogTable(exp: array<bv8>) returns (table: array<Option<nat>>)
    requires exp.Length == 256
    requires forall k :: 0 <= k < 256 ==> exp[k] == Exp(k)
    ensures fresh(table) && IsLogTable(table[..])
  {
    table := new Option<nat>[256](i => None);
    assert PartialLog(table[..], 0);
    hide Exp, PartialLog, IsLogTable;
    for i := 0 to 255
      invariant PartialLog(table[..], i)
    {
      PartialLogStep(table[..], i);
      ghost var before := table[..];
      table[exp[i] as int] := Some(i);
      assert table[..] == before[Exp(i) as int := Some(i)];
    }
    PartialLogEnds(table[..]);
  }

  lemma ByteAsInt(a: bv8, b: bv8)
    ensures a as int == b as int <==> a == b
  {
  }

  ghost predicate IsLogTable(t: seq<Option<nat>>) {
    && |t| == 256
    && t[0] == None
    && forall b: bv8 {:trigger Log(b)} :: b != 0 ==> t[b as int] == Some(Log(b))
  }

  lemma AddPeriod(m: int)
    ensures (m + 255) % 255 == m % 255
  {
  }

  class QRMath {
    const expTable: array<bv8>
    const logTable: array<Option<nat>>

    /** The tables hold the powers of x and, at every non-zero byte, its logarithm. */
    ghost predicate Valid()
      reads this, expTable, logTable
    {
      && expTable.Length == 256
      && (forall k :: 0 <= k < 256 ==> expTable[k] == Exp(k))
      && IsLogTable(logTable[..])
    }

    constructor ()
      ensures Valid()
      ensures fresh(expTable) && fresh(logTable)
    {
      var exp := BuildExpTable();
      var log := BuildLogTable(exp);
      expTable := exp;
      logTable := log;
    }

    /** Throws on 0. An undefined argument indexes nothing and gives an undefined logarithm. */
    method Glog(n: Option<bv8>) returns (r: Result<Option<nat>>)
      requires Valid()
      ensures r == GlogSpec(n)
    {
      if n.Some? && n.value < 1 {
        return Throws;
      }
      if n == None {
        return Ok(None);
      }
      assert Log(n.value) < 255;
      r := Ok(logTable[n.value as int]);
    }

    /** x^n for any integer n: the exponent is brought into 0..254 one period at a time. */
    method Gexp(n: Option<int>) returns (r: Option<bv8>)
      requires Valid()
      ensures r == GexpSpec(n)
    {
      hide Exp;
      if n == None {
        return None;
      }
      var m := n.value;
      while m < 0
        invariant m % 255 == n.value % 255
      {
        AddPeriod(m);
        m := m + 255;
      }
      while m >= 255
        invariant m >= 0 && m % 255 == n.value % 255
      {
        AddPeriod(m - 255);
        m := m - 255;
      }
      assert expTable[m] == Exp(m);
      r := Some(expTable[m]);
    }
  }

  ghost function GlogSpec(n: Option<bv8>): Result<Option<nat>> {
    match n
    case None => Ok(None)
    case Some(b) => if b == 0 then Throws else Ok(Some(Log(b)))
  }

  function GexpSpec(n: Option<int>): Option<bv8> {
    match n
    case None => None
    case Some(m) => Some(Exp(m % 255))
  }

  /** Addition in which an undefined operand makes the sum undefined. */
  function Plus(a: Option<int>, b: Option<int>): Option<int> {
    if a.Some? && b.Some? then Some(a.value + b.value) else None
  }

  function Minus(a: Option<int>, b: Option<int>): Option<int> {
    if a.Some? && b.Some? then Some(a.value - b.value) else None
  }

  /** Adding table logarithms and exponentiating is field multiplication. */
  lemma LogAddIsMul(a: bv8, b: bv8)
    requires a != 0 && b != 0
    ensures Exp((Log(a) + Log(b)) % 255) == Mul(a, b)
  {
    hide *;
    var i, j, sum := Log(a), Log(b), Log(a) + Log(b);
    MulExp(i, j, sum);
    ExpPeriod(sum);
  }

  /** gexp depends on its argument modulo 255, and on nothing coarser. */
  lemma GexpPeriodic(m: int, n: int)
    ensures Exp(m % 255) == Exp(n % 255) <==> m % 255 == n % 255
  {
    hide *;
    if Exp(m % 255) == Exp(n % 255) {
      ExpInjective(m % 255, n % 255);
    }
  }
}
