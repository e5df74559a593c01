/**
 The address pool of `opennotrd/core/dhcp.go`: addresses as signed 32-bit numbers, their dotted form,
 and the free and leased sets.
 */
module Dhcp {
  import opened Basics

  type int32 = x: int | -0x8000_0000 <= x < 0x8000_0000

  const MAX_INT32: int32 := 0x7fff_ffff

  // int32 arithmetic wraps around
  function Wrap32(x: int): int32 {
    (x + 0x8000_0000) % 0x1_0000_0000 - 0x8000_0000
  }

  // ---------- toIP ----------

  // byte(iip >> shift), with 2^shift as the place: the shift of a signed number rounds down
  function Octet(iip: int32, place: nat): byte
    requires place > 0
  {
    iip / place % 0x100
  }

  function Parts(iip: int32): seq<string> {
    [Decimal(Octet(iip, 0x100_0000)), Decimal(Octet(iip, 0x1_0000)), Decimal(Octet(iip, 0x100)), Decimal(Octet(iip, 1))]
  }

  /** "%d.%d.%d.%d" of the four bytes, the highest first. */
  function ToIP(iip: int32): string {
    Join(Parts(iip), '.')
  }

  lemma OctetsExact(i: int32, j: int32)
    requires Octet(i, 0x100_0000) == Octet(j, 0x100_0000) && Octet(i, 0x1_0000) == Octet(j, 0x1_0000)
    requires Octet(i, 0x100) == Octet(j, 0x100) && Octet(i, 1) == Octet(j, 1)
    ensures i == j
  {
    Reassemble(i);
    Reassemble(j);
    hide Octet;
  }

  // The four bytes in two's complement.
  lemma Reassemble(i: int32)
    ensures var top := Octet(i, 0x100_0000);
      i == (if top < 0x80 then top else top - 0x100) * 0x100_0000
           + Octet(i, 0x1_0000) * 0x1_0000 + Octet(i, 0x100) * 0x100 + Octet(i, 1)
  {
    var q1, q2, q3 := i / 0x100, i / 0x1_0000, i / 0x100_0000;
    assert q2 == q1 / 0x100;
    assert q3 == q2 / 0x100;
    assert -0x80 <= q3 < 0x80;
  }

  /** Different numbers have different dotted forms, negative ones included. */
  lemma ToIPInjective(i: int32, j: int32)
    ensures ToIP(i) == ToIP(j) <==> i == j
  {
    if ToIP(i) == ToIP(j) {
      PartsPlain(i);
      PartsPlain(j);
      SplitJoin(Parts(i), '.');
      SplitJoin(Parts(j), '.');
      assert Parts(i)[0] == Parts(j)[0] && Parts(i)[1] == Parts(j)[1];
      assert Parts(i)[2] == Parts(j)[2] && Parts(i)[3] == Parts(j)[3];
      DecimalExact(Octet(i, 0x100_0000), Octet(j, 0x100_0000));
      DecimalExact(Octet(i, 0x1_0000), Octet(j, 0x1_0000));
      DecimalExact(Octet(i, 0x100), Octet(j, 0x100));
      DecimalExact(Octet(i, 1), Octet(j, 1));
      OctetsExact(i, j);
    }
  }

  lemma PartsPlain(i: int32)
    ensures forall k :: 0 <= k < 4 ==> '.' !in Parts(i)[k]
  {
    DecimalPlain(Octet(i, 0x100_0000), '.');
    DecimalPlain(Octet(i, 0x1_0000), '.');
    DecimalPlain(Octet(i, 0x100), '.');
    DecimalPlain(Octet(i, 1), '.');
  }

  // ---------- what a reader makes of the text ----------

  /** Four numbers below 256 with dots between them, the highest first. */
  function ReadIP(s: string): Option<nat> {
    ReadParts(Split(s, '.'))
  }

  function ReadParts(p: seq<string>): Option<nat> {
    if |p| == 4 && ReadsByte(p[0]) && ReadsByte(p[1]) && ReadsByte(p[2]) && ReadsByte(p[3])
    then Some(NumberOf(p[0]) * 0x100_0000 + NumberOf(p[1]) * 0x1_0000 + NumberOf(p[2]) * 0x100 + NumberOf(p[3]))
    else None
  }

  predicate ReadsByte(s: string) {
    IsNumber(s) && 0 <= NumberOf(s) < 256
  }

  // The 32 bits of an int32, as an unsigned number.
  function Bits(x: int32): nat {
    x % 0x1_0000_0000
  }

  lemma OctetsOfBits(x: int32)
    ensures var v := x % 0x1_0000_0000;
      && Octet(x, 0x100_0000) == v / 0x100_0000 && Octet(x, 0x1_0000) == v / 0x1_0000 % 0x100
      && Octet(x, 0x100) == v / 0x100 % 0x100 && Octet(x, 1) == v % 0x100
  {
    HighOctet(x);
    SecondOctet(x);
    ThirdOctet(x);
    LowOctet(x);
  }

  // The wrap-around is by a multiple of what the octet's place leaves.
  lemma HighOctet(x: int32)
    ensures Octet(x, 0x100_0000) == x % 0x1_0000_0000 / 0x100_0000
  {
  }

  lemma SecondOctet(x: int32)
    ensures Octet(x, 0x1_0000) == x % 0x1_0000_0000 / 0x1_0000 % 0x100
  {
    assert x < 0 ==> x % 0x1_0000_0000 / 0x1_0000 == x / 0x1_0000 + 0x1_0000;
  }

  lemma ThirdOctet(x: int32)
    ensures Octet(x, 0x100) == x % 0x1_0000_0000 / 0x100 % 0x100
  {
    assert x < 0 ==> x % 0x1_0000_0000 / 0x100 == x / 0x100 + 0x100_0000;
  }

  lemma LowOctet(x: int32)
    ensures Octet(x, 1) == x % 0x1_0000_0000 % 0x100
  {
    assert x < 0 ==> x % 0x1_0000_0000 == x + 0x1_0000_0000;
  }

  /** The dotted form of an unsigned number: its bits in groups of eight, the highest first. */
  function Dotted(v: nat): string {
    Decimal(v / 0x100_0000) + "." + Decimal(v / 0x1_0000 % 0x100) + "." + Decimal(v / 0x100 % 0x100) + "." + Decimal(v % 0x100)
  }

  lemma ToIPText(x: int32)
    ensures ToIP(x) == Dotted(x % 0x1_0000_0000)
  {
    OctetsOfBits(x);
    hide Decimal, Octet;
    var p := Parts(x);
    assert p[1..] == [p[1], p[2], p[3]] && p[1..][1..] == [p[2], p[3]] && p[1..][1..][1..] == [p[3]];
    JoinFour(p[0], p[1], p[2], p[3]);
  }

  lemma JoinFour(a: string, b: string, c: string, d: string)
    ensures Join([a, b, c, d], '.') == a + "." + b + "." + c + "." + d
  {
    assert [a, b, c, d][1..] == [b, c, d] && [b, c, d][1..] == [c, d] && [c, d][1..] == [d];
    assert Join([c, d], '.') == c + ['.'] + d;
    assert Join([b, c, d], '.') == b + ['.'] + Join([c, d], '.');
  }

  lemma BytesRead(a: byte, b: byte, c: byte, d: byte)
    ensures ReadParts([Decimal(a), Decimal(b), Decimal(c), Decimal(d)])
         == Some(a * 0x100_0000 + b * 0x1_0000 + c * 0x100 + d)
  {
    ByteReads(a);
    ByteReads(b);
    ByteReads(c);
    ByteReads(d);
    hide Decimal, ReadsByte, NumberOf;
  }

  lemma ByteReads(a: byte)
    ensures ReadsByte(Decimal(a)) && NumberOf(Decimal(a)) == a
  {
    DecimalReads(a);
    hide Decimal, IsNumber, NumberOf;
  }

  lemma BitsOfOctets(x: int32)
    ensures x % 0x1_0000_0000
         == Octet(x, 0x100_0000) * 0x100_0000 + Octet(x, 0x1_0000) * 0x1_0000 + Octet(x, 0x100) * 0x100 + Octet(x, 1)
  {
    Reassemble(x);
  }

  /** A reader gets back the 32 bits of the number. */
  lemma ToIPReads(x: int32)
    ensures ReadIP(ToIP(x)) == Some(x % 0x1_0000_0000)
  {
    PartsPlain(x);
    BytesRead(Octet(x, 0x100_0000), Octet(x, 0x1_0000), Octet(x, 0x100), Octet(x, 1));
    BitsOfOctets(x);
    hide Decimal, Octet, ReadParts, Join, Split;
    SplitJoin(Parts(x), '.');
  }

  // ---------- getIPRange ----------

  function Pow2(n: nat): (p: nat)
    ensures p >= 1
  {
    if n == 0 then 1 else 2 * Pow2(n - 1)
  }

  /** An address with a prefix of `one` bits; the parsing of the text is not part of this model. */
  datatype Cidr = Cidr(a: byte, b: byte, c: byte, d: byte, one: nat)

  function Begin(cidr: Cidr): int32 {
    ToInt32(0x100_0000 * cidr.a as int + 0x1_0000 * cidr.b as int + 0x100 * cidr.c as int + cidr.d as int)
  }

  // Bitwise or of the n low bits of two numbers.
  function Or(x: nat, y: nat, n: nat): nat {
    if n == 0 then 0 else 2 * Or(x / 2, y / 2, n - 1) + (if x % 2 == 1 || y % 2 == 1 then 1 else 0)
  }

  /** `1<<(32-one) - 1` in int32: for one == 1 both steps wrap around, and for one == 0 the bit is shifted out. */
  function HostMask(one: nat): int32
    requires one <= 32
  {
    Wrap32(Wrap32(Pow2(32 - one)) - 1)
  }

  /** `begin | (1<<(32-one) - 1)`. */
  function End(cidr: Cidr): int32
    requires cidr.one <= 32
  {
    ToInt32(Or(Bits(Begin(cidr)), Bits(HostMask(cidr.one)), 32))
  }

  /** The last number of the block of size h that x lies in. */
  function BlockTop(x: int, h: nat): int
    requires h >= 1
  {
    x - x % h + (h - 1)
  }

  // k ones, and x with its k low bits set.
  function Ones(k: nat): nat {
    if k == 0 then 0 else 2 * Ones(k - 1) + 1
  }

  function LowSet(x: nat, k: nat): nat {
    if k == 0 then x else 2 * LowSet(x / 2, k - 1) + 1
  }

  lemma {:induction false} OnesAre(k: nat)
    ensures Ones(k) == Pow2(k) - 1
  {
    if k > 0 {
      OnesAre(k - 1);
    }
  }

  lemma {:induction false} LowSetIs(x: nat, k: nat)
    ensures LowSet(x, k) == BlockTop(x, Pow2(k))
    decreases k
  {
    if k > 0 {
      LowSetIs(x / 2, k - 1);
      HalfMod(x, Pow2(k - 1));
      assert Pow2(k) == 2 * Pow2(k - 1) && LowSet(x, k) == 2 * LowSet(x / 2, k - 1) + 1;
      hide BlockTop, Pow2, LowSet;
    }
  }

  // Or with k low ones sets the k low bits of x.
  lemma {:induction false} OrOnes(x: nat, k: nat, n: nat)
    requires k <= n && x < Pow2(n)
    ensures Or(x, Ones(k), n) == LowSet(x, k)
    decreases n
  {
    if k == 0 {
      OrZero(x, n);
    } else {
      HalfBelow(x, n);
      OrOnes(x / 2, k - 1, n - 1);
      OrOdd(x, Ones(k - 1), n);
      hide Or, Pow2;
    }
  }

  lemma HalfBelow(x: nat, n: nat)
    requires n >= 1 && x < Pow2(n)
    ensures x / 2 < Pow2(n - 1)
  {
  }

  lemma OrOdd(x: nat, o: nat, n: nat)
    requires n >= 1
    ensures Or(x, 2 * o + 1, n) == 2 * Or(x / 2, o, n - 1) + 1
  {
    assert (2 * o + 1) / 2 == o && (2 * o + 1) % 2 == 1;
  }

  lemma {:induction false} OrZero(x: nat, n: nat)
    requires x < Pow2(n)
    ensures Or(x, 0, n) == x
  {
    if n > 0 {
      OrZero(x / 2, n - 1);
    }
  }

  lemma HalfMod(x: nat, h: nat)
    requires h >= 1
    ensures 2 * BlockTop(x / 2, h) + 1 == BlockTop(x, 2 * h)
  {
    var q := x / 2 / h;
    var r := x / 2 % h;
    assert x / 2 == q * h + r;
    assert x == q * (2 * h) + (2 * r + x % 2);
    ModUnique(x, q, 2 * r + x % 2, 2 * h);
  }

  lemma {:induction false} Pow2Product(m: nat, n: nat)
    ensures Pow2(m) * Pow2(n) == Pow2(m + n)
  {
    if m > 0 {
      Pow2Product(m - 1, n);
      assert Pow2(m) * Pow2(n) == 2 * (Pow2(m - 1) * Pow2(n));
    }
  }

  lemma Pow2ThirtyOne()
    ensures Pow2(31) == 0x8000_0000
  {
    assert Pow2(4) == 16;
    Pow2Product(4, 4);
    Pow2Product(8, 8);
    Pow2Product(8, 7);
    assert Pow2(7) == 2 * Pow2(6) && Pow2(6) == 2 * Pow2(5) && Pow2(5) == 2 * Pow2(4);
    Pow2Product(16, 15);
  }

  // From x on, there is room for the rest of its block of size h.
  lemma BlockFits(x: int, h: nat, m: nat)
    requires h >= 1 && h * m == 0x8000_0000 && x < 0x8000_0000
    ensures x - x % h + h <= 0x8000_0000
  {
    var q := x / h;
    assert x - x % h == h * q;
    assert q >= m ==> h * q >= h * m;
    assert h * (q + 1) <= h * m;
  }

  lemma SameBlock(x: int, j: int, h: nat)
    requires h >= 1 && x <= j <= BlockTop(x, h)
    ensures j / h == x / h
  {
    var q := x / h;
    assert x - x % h == h * q;
    ModUnique(j, q, j - h * q, h);
    assert j == h * (j / h) + j % h;
    SmallMultiple(j / h - q, h);
  }

  lemma {:induction false} Pow2Grows(m: nat, n: nat)
    requires m <= n
    ensures Pow2(m) <= Pow2(n)
  {
    if m < n {
      Pow2Grows(m, n - 1);
    }
  }

  // The mask is all ones in the host bits.
  lemma HostMaskOnes(one: nat)
    requires one <= 32
    ensures Bits(HostMask(one)) == Pow2(32 - one) - 1
  {
    var h := Pow2(32 - one);
    Pow2ThirtyOne();
    if one == 0 {
      assert h == 2 * Pow2(31);
    } else {
      Pow2Grows(32 - one, 31);
    }
    hide Pow2;
    MaskWraps(h);
  }

  lemma MaskWraps(h: nat)
    requires 1 <= h <= 0x8000_0000 || h == 0x1_0000_0000
    ensures Bits(Wrap32(Wrap32(h) - 1)) == h - 1
  {
  }

  // The host bits of a number are those of its 32 bits.
  lemma BitsMod(x: int32, h: nat, m: nat)
    requires h >= 1 && h * m == 0x1_0000_0000
    ensures Bits(x) % h == x % h
  {
    if x < 0 {
      var q := x / h;
      assert x == q * h + x % h;
      assert Bits(x) == x + 0x1_0000_0000;
      assert (q + m) * h == q * h + m * h;
      ModUnique(Bits(x), q + m, x % h, h);
    }
  }

  lemma BitsBack(x: int32, d: nat)
    requires x + d < 0x8000_0000
    ensures ToInt32(Bits(x) + d) == x + d
  {
  }

  lemma Pow2ThirtyTwo()
    ensures Pow2(32) == 0x1_0000_0000
  {
    Pow2ThirtyOne();
    assert Pow2(32) == 2 * Pow2(31);
  }

  lemma HostsTimes(one: nat)
    requires 1 <= one <= 32
    ensures Pow2(32 - one) * Pow2(one - 1) == 0x8000_0000
  {
    Pow2Product(32 - one, one - 1);
    Pow2ThirtyOne();
  }

  lemma OrMask(x: int32, one: nat)
    requires one <= 32
    ensures var hosts := Pow2(32 - one); Or(Bits(x), Bits(HostMask(one)), 32) == BlockTop(Bits(x), hosts)
  {
    Pow2ThirtyTwo();
    HostMaskOnes(one);
    hide Pow2, HostMask, Or, BlockTop, Ones, LowSet;
    OrOnes(Bits(x), 32 - one, 32);
    OnesAre(32 - one);
    LowSetIs(Bits(x), 32 - one);
  }

  /** The OR ends the range at the last address of the block the given address lies in. */
  lemma EndOfBlock(cidr: Cidr)
    requires 1 <= cidr.one <= 32
    ensures var hosts := Pow2(32 - cidr.one);
      Begin(cidr) <= End(cidr) == BlockTop(Begin(cidr), hosts)
  {
    HostsTimes(cidr.one);
    OrMask(Begin(cidr), cidr.one);
    hide Begin, Pow2, Or, Bits, HostMask, ToInt32, BlockTop;
    BlockEnd(Begin(cidr), Pow2(32 - cidr.one), Pow2(cidr.one - 1));
  }

  // The end of a block of size h in unsigned and in signed numbers.
  lemma BlockEnd(x: int32, h: nat, m: nat)
    requires h >= 1 && h * m == 0x8000_0000
    ensures 0 <= BlockTop(Bits(x), h) && ToInt32(BlockTop(Bits(x), h)) == BlockTop(x, h) >= x
  {
    assert h * (2 * m) == 0x1_0000_0000;
    BitsMod(x, h, 2 * m);
    BlockFits(x, h, m);
    var r := x % h;
    hide Bits, ToInt32;
    BitsBack(x, h - 1 - r);
  }

  /** Without a prefix the range ends at -1, the address 255.255.255.255. */
  lemma EndWithoutPrefix(cidr: Cidr)
    requires cidr.one == 0
    ensures End(cidr) == -1
  {
    Pow2ThirtyTwo();
    OrMask(Begin(cidr), 0);
    AllOnes(Bits(Begin(cidr)));
    hide Pow2, Begin, HostMask, Or, Bits, BlockTop;
  }

  lemma EndsHigh(cidr: Cidr)
    requires cidr.one <= 32
    ensures if cidr.one == 0 then End(cidr) == -1 else Begin(cidr) <= End(cidr)
  {
    if cidr.one == 0 {
      EndWithoutPrefix(cidr);
    } else {
      EndOfBlock(cidr);
    }
  }

  lemma AllOnes(x: nat)
    requires x < 0x1_0000_0000
    ensures BlockTop(x, 0x1_0000_0000) == 0xffff_ffff && ToInt32(0xffff_ffff) == -1
  {
  }

  // ---------- the pool ----------

  ghost function AddressesFrom(start: int, end: int): set<string> {
    set j: int32 | start <= j < end :: ToIP(j)
  }

  /** What the pool is for: the addresses after the given one and before the last of its block. */
  ghost function HostPool(cidr: Cidr): set<string>
    requires cidr.one <= 32
  {
    AddressesFrom(Begin(cidr) as int + 1, End(cidr))
  }

  lemma AddressesNext(start: int32, i: int32)
    requires start <= i < MAX_INT32
    ensures AddressesFrom(start, i as int + 1) == AddressesFrom(start, i) + {ToIP(i)}
    ensures ToIP(i) !in AddressesFrom(start, i)
  {
    forall j: int32 | start <= j < i
      ensures ToIP(j) != ToIP(i)
    {
      ToIPInjective(i, j);
    }
  }

  lemma {:induction false} AddressesCount(start: int32, end: int32)
    requires start <= end
    ensures |AddressesFrom(start, end)| == end - start
    decreases end - start
  {
    if start < end {
      AddressesCount(start, end - 1);
      AddressesNext(start, end - 1);
      assert AddressesFrom(start, end) == AddressesFrom(start, end - 1) + {ToIP(end - 1)};
    } else {
      assert AddressesFrom(start, end) == {};
    }
  }

  /**
   The loop starts at `begin + 1` in 32 bits. It collects the addresses it is meant to collect exactly
   when that does not wrap around, that is for every address but 127.255.255.255.
   */
  lemma PoolExact(cidr: Cidr)
    requires cidr.one <= 32
    ensures AddressesFrom(Wrap32(Begin(cidr) as int + 1), End(cidr)) == HostPool(cidr) <==> Begin(cidr) != MAX_INT32
  {
    EndsHigh(cidr);
    WrapNext(Begin(cidr));
    hide Begin, End, Pow2, Wrap32, AddressesFrom;
    if Begin(cidr) == MAX_INT32 {
      FullRange(End(cidr));
      NoAddresses(MAX_INT32 as int + 1, End(cidr));
    }
  }

  lemma WrapNext(x: int32)
    ensures Wrap32(x as int + 1) == if x == MAX_INT32 then -0x8000_0000 else x as int + 1
  {
  }

  lemma FullRange(end: int32)
    requires end > -0x8000_0000
    ensures AddressesFrom(-0x8000_0000, end) != {}
  {
    hide ToIP;
    var low: int32 := -0x8000_0000;
    assert ToIP(low) in AddressesFrom(-0x8000_0000, end);
  }

  lemma NoAddresses(start: int, end: int)
    requires start >= end
    ensures AddressesFrom(start, end) == {}
  {
  }

  /** The pool has as many addresses as numbers lie strictly between the two ends. */
  lemma PoolCount(cidr: Cidr)
    requires cidr.one <= 32
    ensures |HostPool(cidr)| == if End(cidr) - Begin(cidr) >= 1 then End(cidr) - Begin(cidr) - 1 else 0
  {
    hide Begin, End, ToIP;
    if Begin(cidr) < End(cidr) {
      AddressesCount(Begin(cidr) + 1, End(cidr));
    } else {
      assert HostPool(cidr) == {};
    }
  }

  /** Pool addresses share the prefix, and neither the gateway nor the last address is among them. */
  lemma PoolWithinPrefix(cidr: Cidr, j: int32)
    requires cidr.one <= 32 && ToIP(j) in HostPool(cidr)
    ensures j / Pow2(32 - cidr.one) == Begin(cidr) / Pow2(32 - cidr.one)
    ensures ToIP(j) != ToIP(Begin(cidr)) && ToIP(j) != ToIP(End(cidr))
  {
    hide Begin, End, Pow2, ToIP;
    var i: int32 :| Begin(cidr) as int + 1 <= i < End(cidr) && ToIP(i) == ToIP(j);
    ToIPInjective(i, j);
    ToIPInjective(j, Begin(cidr));
    ToIPInjective(j, End(cidr));
    BetweenInBlock(cidr, j);
  }

  lemma BetweenInBlock(cidr: Cidr, j: int32)
    requires cidr.one <= 32 && Begin(cidr) < j < End(cidr)
    ensures j / Pow2(32 - cidr.one) == Begin(cidr) / Pow2(32 - cidr.one)
  {
    hide Pow2, Begin, End, BlockTop;
    if cidr.one == 0 {
      EndWithoutPrefix(cidr);
      Pow2ThirtyTwo();
      NegativeBlock(Begin(cidr), j);
    } else {
      EndOfBlock(cidr);
      SameBlock(Begin(cidr), j, Pow2(32 - cidr.one));
    }
  }

  lemma NegativeBlock(x: int32, j: int32)
    requires x < j < -1
    ensures j / 0x1_0000_0000 == x / 0x1_0000_0000
  {
  }

  // ---------- the pool as text ----------

  // The given address as an unsigned number.
  function Given(cidr: Cidr): nat {
    0x100_0000 * cidr.a as int + 0x1_0000 * cidr.b as int + 0x100 * cidr.c as int + cidr.d as int
  }

  lemma BeginBits(cidr: Cidr)
    ensures Given(cidr) < 0x1_0000_0000 && Bits(Begin(cidr)) == Given(cidr)
  {
  }

  lemma DottedBytes(a: byte, b: byte, c: byte, n: byte)
    ensures Dotted(0x100_0000 * a as int + 0x1_0000 * b as int + 0x100 * c as int + n as int)
         == Decimal(a) + "." + Decimal(b) + "." + Decimal(c) + "." + Decimal(n)
  {
    Groups(a, b, c, n);
    hide Decimal;
  }

  lemma Groups(a: byte, b: byte, c: byte, n: byte)
    ensures var v := 0x100_0000 * a as int + 0x1_0000 * b as int + 0x100 * c as int + n as int;
      v / 0x100_0000 == a && v / 0x1_0000 % 0x100 == b && v / 0x100 % 0x100 == c && v % 0x100 == n
  {
    var v := 0x100_0000 * a as int + 0x1_0000 * b as int + 0x100 * c as int + n as int;
    var w := 0x100 * a as int + b as int;
    assert v / 0x1_0000 == w;
    assert w % 0x100 == b;
    var u := 0x100 * w + c as int;
    assert v / 0x100 == u;
    assert u % 0x100 == c;
  }

  /** The range begins with the text of the address that was given. */
  lemma BeginText(cidr: Cidr)
    ensures ToIP(Begin(cidr)) == Decimal(cidr.a) + "." + Decimal(cidr.b) + "." + Decimal(cidr.c) + "." + Decimal(cidr.d)
  {
    BeginBits(cidr);
    BitsAre(Begin(cidr));
    ToIPText(Begin(cidr));
    hide Decimal, ToIP, Begin, Dotted, Bits;
    DottedBytes(cidr.a, cidr.b, cidr.c, cidr.d);
  }

  // A block does not reach from the negative numbers over zero.
  lemma BlockKeepsSign(x: int, h: nat)
    requires h >= 1 && x < 0
    ensures BlockTop(x, h) < 0
  {
    var q := x / h;
    assert x == q * h + x % h;
    assert q * h <= -1 * h;
  }

  lemma RangeKeepsSign(cidr: Cidr)
    requires cidr.one <= 32 && Begin(cidr) < 0
    ensures End(cidr) < 0
  {
    if cidr.one == 0 {
      EndWithoutPrefix(cidr);
    } else {
      EndOfBlock(cidr);
      BlockKeepsSign(Begin(cidr), Pow2(32 - cidr.one));
    }
    hide Pow2, BlockTop, End, Begin;
  }

  lemma SameSignBits(x: int32, j: int32)
    requires x <= j && (x < 0 ==> j < 0)
    ensures Bits(j) - Bits(x) == j - x
  {
  }

  // In the range the unsigned numbers run along with the signed ones.
  lemma RangeBits(cidr: Cidr, j: int32)
    requires cidr.one <= 32 && Begin(cidr) <= j <= End(cidr)
    ensures Bits(j) - Given(cidr) == j - Begin(cidr)
  {
    hide *;
    BeginBits(cidr);
    if Begin(cidr) < 0 {
      RangeKeepsSign(cidr);
    }
    SameSignBits(Begin(cidr), j);
  }

  lemma BitsOfInt32(v: nat)
    requires v < 0x1_0000_0000
    ensures Bits(ToInt32(v)) == v
  {
  }

  lemma EndBits(cidr: Cidr)
    requires cidr.one <= 32
    ensures Bits(End(cidr)) == BlockTop(Given(cidr), Pow2(32 - cidr.one))
  {
    BeginBits(cidr);
    OrMask(Begin(cidr), cidr.one);
    OrBelow(Bits(Begin(cidr)), Bits(HostMask(cidr.one)), 32);
    Pow2ThirtyTwo();
    hide Pow2, BlockTop, Begin, HostMask, Or, Bits, ToInt32, Given;
    BitsOfInt32(Or(Bits(Begin(cidr)), Bits(HostMask(cidr.one)), 32));
  }

  lemma {:induction false} OrBelow(x: nat, y: nat, n: nat)
    ensures Or(x, y, n) < Pow2(n)
  {
    if n > 0 {
      OrBelow(x / 2, y / 2, n - 1);
    }
  }

  /**
   The pool, as text: the dotted forms of the numbers after the one given and before the last of its block
   of 2^(32-one).
   */
  lemma PoolText(cidr: Cidr, s: string)
    requires 1 <= cidr.one <= 32
    ensures s in HostPool(cidr) <==>
      exists v: nat :: Given(cidr) < v < BlockTop(Given(cidr), Pow2(32 - cidr.one)) && s == Dotted(v)
  {
    hide *;
    EndBits(cidr);
    EndsHigh(cidr);
    RangeBits(cidr, End(cidr));
    PoolMember(cidr, s);
    if s in HostPool(cidr) {
      var j: int32 :| Begin(cidr) < j < End(cidr) && ToIP(j) == s;
      RangeBits(cidr, j);
      ToIPText(j);
      BitsAre(j);
      assert s == Dotted(Bits(j));
    }
    if v: nat :| Given(cidr) < v < BlockTop(Given(cidr), Pow2(32 - cidr.one)) && s == Dotted(v) {
      var j: int32 := Begin(cidr) + (v - Given(cidr));
      RangeBits(cidr, j);
      ToIPText(j);
      BitsAre(j);
      assert ToIP(j) == s;
    }
  }

  lemma PoolMember(cidr: Cidr, s: string)
    requires cidr.one <= 32
    ensures s in HostPool(cidr) <==> exists j: int32 :: Begin(cidr) < j < End(cidr) && ToIP(j) == s
  {
    hide Begin, End, ToIP;
  }

  lemma BitsAre(j: int32)
    ensures Bits(j) == j % 0x1_0000_0000
  {
  }

  /** Every text of the pool reads as an address with the first `one` bits of the given one, and after it. */
  lemma PoolReads(cidr: Cidr, s: string)
    requires cidr.one <= 32 && s in HostPool(cidr)
    ensures ReadIP(s).Some?
    ensures ReadIP(s).value / Pow2(32 - cidr.one) == Given(cidr) / Pow2(32 - cidr.one)
    ensures Given(cidr) < ReadIP(s).value < BlockTop(Given(cidr), Pow2(32 - cidr.one))
  {
    EndBits(cidr);
    EndsHigh(cidr);
    hide Begin, End, Pow2, ToIP, BlockTop, Given, Bits, ReadIP;
    var j: int32 :| Begin(cidr) as int + 1 <= j < End(cidr) && ToIP(j) == s;
    RangeBits(cidr, j);
    RangeBits(cidr, End(cidr));
    ToIPReads(j);
    BitsAre(j);
    SameBlock(Given(cidr), Bits(j), Pow2(32 - cidr.one));
  }

  // The text of an address that shares the first three numbers of the given one.
  function WithLast(cidr: Cidr, n: byte): string {
    Decimal(cidr.a) + "." + Decimal(cidr.b) + "." + Decimal(cidr.c) + "." + Decimal(n)
  }

  lemma DottedLast(cidr: Cidr, n: byte)
    ensures Given(cidr) >= cidr.d && Dotted(Given(cidr) - cidr.d + n) == WithLast(cidr, n)
  {
    hide Decimal, Dotted;
    DottedBytes(cidr.a, cidr.b, cidr.c, n);
  }

  /** For a prefix of 24 bits or more the pool differs from the given address in the last number alone. */
  lemma PoolOfLastByte(cidr: Cidr, s: string)
    requires 24 <= cidr.one <= 32
    ensures s in HostPool(cidr) <==>
      exists n: byte :: cidr.d < n < BlockTop(cidr.d, Pow2(32 - cidr.one)) && s == WithLast(cidr, n)
  {
    hide *;
    PoolText(cidr, s);
    LastByteBlock(cidr);
    if s in HostPool(cidr) {
      var v: nat :| Given(cidr) < v < BlockTop(Given(cidr), Pow2(32 - cidr.one)) && s == Dotted(v);
      var n: byte := v - (Given(cidr) - cidr.d);
      DottedLast(cidr, n);
      assert s == WithLast(cidr, n);
    }
    if n: byte :| cidr.d < n < BlockTop(cidr.d, Pow2(32 - cidr.one)) && s == WithLast(cidr, n) {
      DottedLast(cidr, n);
      assert s == Dotted(Given(cidr) - cidr.d + n);
    }
  }

  lemma LastByteBlock(cidr: Cidr)
    requires 24 <= cidr.one <= 32
    ensures var h := Pow2(32 - cidr.one);
      0 <= Given(cidr) - cidr.d && BlockTop(cidr.d, h) < 0x100
      && BlockTop(Given(cidr), h) == Given(cidr) - cidr.d + BlockTop(cidr.d, h)
  {
    Pow2Product(32 - cidr.one, cidr.one - 24);
    Pow2Eight();
    hide Pow2, BlockTop;
    BlockOfByte(0x1_0000 * cidr.a as int + 0x100 * cidr.b as int + cidr.c as int, cidr.d,
                Pow2(32 - cidr.one), Pow2(cidr.one - 24));
  }

  // A block of size h, a divisor of 256, lies within one value of the upper bytes.
  lemma BlockOfByte(q: nat, d: byte, h: nat, m: nat)
    requires h >= 1 && h * m == 0x100
    ensures BlockTop(d, h) < 0x100 && BlockTop(0x100 * q + d, h) == 0x100 * q + BlockTop(d, h)
  {
    BlockBelow(d, h, m);
    assert 0x100 * q == q * m * h;
    ModShift(d, q * m, h);
  }

  lemma BlockBelow(d: nat, h: nat, m: nat)
    requires h >= 1 && d < h * m
    ensures BlockTop(d, h) < h * m
  {
    var k, r := d / h, d % h;
    assert d == h * k + r;
    assert k >= m ==> h * k >= h * m;
    assert h * (k + 1) <= h * m;
  }

  lemma ModShift(x: nat, k: nat, h: nat)
    requires h >= 1
    ensures (k * h + x) % h == x % h
  {
    var q := x / h;
    assert k * h + x == (k + q) * h + x % h;
    ModUnique(k * h + x, k + q, x % h, h);
  }

  lemma Pow2Eight()
    ensures Pow2(8) == 0x100
  {
    assert Pow2(4) == 16;
    Pow2Product(4, 4);
  }

  class DHCP {
    var free: set<string>
    var inuse: set<string>
    var localIP: string
    ghost const pool: set<string>

    /** Free and leased addresses partition the pool. */
    ghost predicate Valid()
      reads this
    {
      free !! inuse && free + inuse == pool
    }

    /** `NewDHCP` on a parsed address. */
    constructor (cidr: Cidr)
      requires cidr.one <= 32
      ensures Valid() && inuse == {}
      ensures localIP == Decimal(cidr.a) + "." + Decimal(cidr.b) + "." + Decimal(cidr.c) + "." + Decimal(cidr.d)
      ensures pool == AddressesFrom(Wrap32(Begin(cidr) as int + 1), End(cidr))
      ensures Begin(cidr) != MAX_INT32 ==> pool == HostPool(cidr)
    {
      var begin, end := Begin(cidr), End(cidr);
      var all: set<string> := {};
      var start: int32 := Wrap32(begin as int + 1);
      var i: int32 := start;
      assert AddressesFrom(start, start) == {};
      while i < end
        invariant start <= i && all == AddressesFrom(start, i)
        invariant i > end ==> i == start
      {
        AddressesNext(start, i);
        all := all + {ToIP(i)};
        i := i + 1;
      }
      assert AddressesFrom(start, end) == AddressesFrom(start, i);
      PoolExact(cidr);
      BeginText(cidr);
      free, inuse, localIP := all, {}, ToIP(begin);
      pool := all;
    }

    /** Any free address may be handed out; it is never one that is leased. */
    method SelectIP() returns (ip: Option<string>)
      requires Valid()
      modifies this`free, this`inuse
      ensures Valid()
      ensures if old(free) == {} then ip == None && free == old(free) && inuse == old(inuse)
              else ip.Some? && ip.value in old(free) && ip.value !in old(inuse)
                   && free == old(free) - {ip.value} && inuse == old(inuse) + {ip.value}
    {
      if free == {} {
        return None;
      }
      var a :| a in free;
      free, inuse := free - {a}, inuse + {a};
      return Some(a);
    }

    /** The partition survives exactly the release of an address of the pool. */
    method ReleaseIP(ip: string)
      requires Valid()
      modifies this`free, this`inuse
      ensures free == old(free) + {ip} && inuse == old(inuse) - {ip}
      ensures Valid() <==> ip in pool
    {
      free, inuse := free + {ip}, inuse - {ip};
    }

    /**
     Any sequence of selections and of releases of an address leased at that time: leased addresses are
     distinct, and every address of the pool is either free or leased to exactly one holder.
     */
    method Lease(calls: seq<Call>) returns (held: seq<string>)
      requires Valid() && inuse == {}
      modifies this`free, this`inuse
      ensures Valid() && inuse == Elements(held) && Distinct(held)
      ensures |free| + |held| == |pool|
    {
      held := [];
      for n := 0 to |calls|
        invariant Valid() && inuse == Elements(held) && Distinct(held)
      {
        match calls[n]
        case Select =>
          var ip := SelectIP();
          if ip.Some? {
            HeldGrows(held, ip.value);
            held := held + [ip.value];
          }
        case Release(k) =>
          if held != [] {
            var i := k % |held|;
            HeldShrinks(held, i);
            ReleaseIP(held[i]);
            held := held[..i] + held[i + 1..];
          }
      }
      HeldCount(held, inuse);
      assert |free + inuse| == |free| + |inuse|;
    }
  }

  /** A call by a lease holder: `Release(k)` gives back the k-th leased address, counting round. */
  datatype Call = Select | Release(k: nat)

  ghost function Elements(held: seq<string>): set<string> {
    set k | 0 <= k < |held| :: held[k]
  }

  ghost predicate Distinct(held: seq<string>) {
    forall j, k :: 0 <= j < k < |held| ==> held[j] != held[k]
  }

  lemma HeldGrows(held: seq<string>, ip: string)
    requires Distinct(held) && ip !in Elements(held)
    ensures Distinct(held + [ip]) && Elements(held + [ip]) == Elements(held) + {ip}
  {
    var more := held + [ip];
    assert more[|held|] == ip;
    assert forall k :: 0 <= k < |held| ==> more[k] == held[k] && held[k] in Elements(held);
  }

  lemma HeldShrinks(held: seq<string>, i: nat)
    requires Distinct(held) && i < |held|
    ensures held[i] in Elements(held)
    ensures Distinct(held[..i] + held[i + 1..])
    ensures Elements(held[..i] + held[i + 1..]) == Elements(held) - {held[i]}
  {
    var less := held[..i] + held[i + 1..];
    assert forall k :: 0 <= k < i ==> less[k] == held[k];
    assert forall k :: i < k < |held| ==> less[k - 1] == held[k];
    forall a | a in Elements(held) && a != held[i]
      ensures a in Elements(less)
    {
      var k :| 0 <= k < |held| && held[k] == a;
      assert less[if k < i then k else k - 1] == a;
    }
  }

  lemma {:induction false} HeldCount(held: seq<string>, s: set<string>)
    requires s == Elements(held) && Distinct(held)
    ensures |s| == |held|
    decreases |held|
  {
    if held != [] {
      var init, last := held[..|held| - 1], held[|held| - 1];
      var t := Elements(init);
      HeldCount(init, t);
      assert s == t + {last};
      assert last !in t;
    }
  }
}
