/**
 The Internet checksum of `opennotrd/core/net.go`: a 32-bit accumulator over big-endian 16-bit words,
 folded afterwards, and its agreement with the one's-complement sum of RFC 1071, section 1.
 */
module Checksum {
  import opened Basics

  const MAX_UINT16: nat := 0xffff

  // ---------- the mathematical sum ----------

  function Word(hi: int, lo: int): int {
    hi * 0x100 + lo
  }

  /** Big-endian 16-bit words; an odd last byte is the high byte of a word. */
  function Words(b: bytes): (s: nat) {
    if b == [] then 0
    else if |b| == 1 then Word(b[0], 0)
    else Word(b[0], b[1]) + Words(b[2..])
  }

  lemma {:induction false} WordsBound(b: bytes)
    ensures Words(b) <= (|b| + 1) / 2 * MAX_UINT16
    decreases |b|
  {
    if |b| >= 2 {
      WordsBound(b[2..]);
    }
  }

  lemma {:induction false} WordsZero(b: bytes)
    ensures Words(b) == 0 <==> forall k :: 0 <= k < |b| ==> b[k] == 0
    decreases |b|
  {
    if |b| >= 2 {
      WordsZero(b[2..]);
      assert forall k :: 2 <= k < |b| ==> b[k] == b[2..][k - 2];
    }
  }

  /** The first byte of a word is the high one, and a byte at the end is one too. */
  lemma WordsOfTwo(hi: byte, lo: byte)
    ensures Words([hi, lo]) == 256 * hi as int + lo as int && Words([hi]) == 256 * hi as int
    ensures Words([0x12, 0x34]) == 0x1234
  {
    assert [hi, lo][2..] == [] && [0x12, 0x34][2..] == [];
  }

  /** Splitting at an even offset is additive. */
  lemma {:induction false} WordsConcat(a: bytes, b: bytes)
    requires |a| % 2 == 0
    ensures Words(a + b) == Words(a) + Words(b)
    decreases |a|
  {
    if a == [] {
      assert a + b == b;
    } else {
      assert (a + b)[2..] == a[2..] + b;
      WordsConcat(a[2..], b);
    }
  }

  lemma {:induction false} WordsSnoc(b: bytes, i: nat)
    requires i + 1 < |b| && i % 2 == 0
    ensures Words(b[..i + 2]) == Words(b[..i]) + Word(b[i], b[i + 1])
  {
    assert b[..i + 2] == b[..i] + b[i..i + 2];
    WordsConcat(b[..i], b[i..i + 2]);
    assert b[i..i + 2][2..] == [];
  }

  // ---------- checksumAdd ----------

  // uint32 addition
  function Add32(a: uint32, b: nat): (r: uint32) {
    (a + b) % TWO_32
  }

  lemma Add32Exact(x: nat, y: nat)
    ensures Add32(x % TWO_32, y) == (x + y) % TWO_32
  {
  }

  /** The accumulator keeps 32 bits; for the buffers a packet can have it never wraps. */
  method ChecksumAdd(buf: bytes, seed: uint32) returns (sum: uint32)
    ensures sum == (seed + Words(buf)) % TWO_32
    ensures |buf| <= 0xffff && seed <= MAX_UINT16 ==> sum == seed + Words(buf)
  {
    sum := seed;
    ghost var exact: nat := seed;
    var i, l := 0, |buf|;
    while i < l
      invariant i % 2 == 0 && 0 <= i <= l
      invariant exact == seed + Words(buf[..i]) && sum == exact % TWO_32
    {
      var j := i + 1;
      if j == l {
        assert buf == buf[..i] + [buf[i]];
        WordsConcat(buf[..i], [buf[i]]);
        Add32Exact(exact, Word(buf[i], 0));
        sum, exact := Add32(sum, Word(buf[i], 0)), exact + Word(buf[i], 0);
        break;
      }
      WordsSnoc(buf, i);
      Add32Exact(exact, Word(buf[i], buf[j]));
      sum, exact := Add32(sum, Word(buf[i], buf[j])), exact + Word(buf[i], buf[j]);
      i := i + 2;
    }
    assert i == l ==> buf[..i] == buf;
    WordsBound(buf);
  }

  // ---------- folding ----------

  /** The one 16-bit value congruent to s mod 0xffff that is 0 only for s == 0. */
  function Folded(s: nat): (r: nat)
    ensures r <= MAX_UINT16
  {
    if s == 0 then 0 else (s - 1) % MAX_UINT16 + 1
  }

  lemma FoldedExact(s: nat, r: nat)
    requires r <= MAX_UINT16
    ensures r == Folded(s) <==> r % MAX_UINT16 == s % MAX_UINT16 && (r == 0 <==> s == 0)
  {
  }

  /** The folded sum of a buffer is zero exactly when every byte is. */
  lemma ZeroSumExact(b: bytes)
    ensures Folded(Words(b)) == 0 <==> forall k :: 0 <= k < |b| ==> b[k] == 0
  {
    WordsZero(b);
    FoldedExact(Words(b), Folded(Words(b)));
  }

  lemma FoldedStep(s: nat)
    ensures Folded(s / 0x10000 + s % 0x10000) == Folded(s)
  {
  }

  lemma FoldedAdd(a: nat, b: nat)
    ensures Folded(Folded(a) + b) == Folded(a + b)
  {
  }

  /** `checksumWrapper`: fold the carries back until 16 bits are left, complement, avoid zero. */
  method ChecksumWrapper(seed: uint32) returns (csum: uint16)
    ensures csum == Complement(Folded(seed))
    ensures csum != 0
  {
    var sum: uint32 := seed;
    while sum > 0xffff
      invariant Folded(sum) == Folded(seed)
    {
      FoldedStep(sum);
      sum := sum / 0x10000 + sum % 0x10000;
    }
    csum := 0xffff - sum;
    if csum == 0 {
      csum := 0xffff;
    }
  }

  /** The 16-bit complement, with the zero that RFC 768 reserves for "no checksum" written as all ones. */
  function Complement(r: nat): (c: uint16)
    requires r <= MAX_UINT16
    ensures c > 0
  {
    if r == MAX_UINT16 then MAX_UINT16 else MAX_UINT16 - r
  }

  method CheckSum(buf: bytes) returns (csum: uint16)
    requires |buf| <= 0xffff
    ensures csum == Complement(Folded(Words(buf)))
  {
    var sum := ChecksumAdd(buf, 0);
    csum := ChecksumWrapper(sum);
  }

  // ---------- the one's-complement sum ----------

  /** Addition with end-around carry. */
  function OnesAdd(a: uint16, b: uint16): uint16 {
    if a + b > MAX_UINT16 then a + b - MAX_UINT16 else a + b
  }

  /** The sum RFC 1071 defines: word by word, the carry added back at once. */
  function OnesSum(b: bytes, seed: uint16): uint16 {
    if b == [] then seed
    else if |b| == 1 then OnesAdd(seed, Word(b[0], 0))
    else OnesSum(b[2..], OnesAdd(seed, Word(b[0], b[1])))
  }

  /** Folding the deferred carries of the wide accumulator gives the one's-complement sum. */
  lemma {:induction false} FoldedIsOnesSum(b: bytes, seed: uint16)
    ensures Folded(seed + Words(b)) == OnesSum(b, seed)
    decreases |b|
  {
    if |b| >= 2 {
      var w := Word(b[0], b[1]);
      FoldedIsOnesSum(b[2..], OnesAdd(seed, w));
      assert OnesAdd(seed, w) == Folded(seed + w);
      FoldedAdd(seed + w, Words(b[2..]));
    }
  }

  /**
   A receiver adds up everything with the checksum in place and expects all ones. It gets that exactly
   when the field holds the complement of the rest, whichever way zero is written.
   */
  lemma ComplementVerifies(rest: nat)
    ensures Folded(rest + Complement(Folded(rest))) == MAX_UINT16
  {
  }

  /** Any other checksum is noticed, up to the two names of zero. */
  lemma OnlyComplementVerifies(rest: nat, c: uint16)
    requires Folded(rest + c) == MAX_UINT16
    ensures c == Complement(Folded(rest)) || (c == 0 && Complement(Folded(rest)) == MAX_UINT16)
  {
  }

  /** The example of section 3 of RFC 1071: the sum of 0001 f203 f4f5 f6f7 is ddf2 and its checksum 220d. */
  lemma Rfc1071Example()
    ensures var b := [0x00, 0x01, 0xf2, 0x03, 0xf4, 0xf5, 0xf6, 0xf7];
      Folded(Words(b)) == 0xddf2 && Complement(Folded(Words(b))) == 0x220d
  {
    var b: bytes := [0x00, 0x01, 0xf2, 0x03, 0xf4, 0xf5, 0xf6, 0xf7];
    assert b[2..] == [0xf2, 0x03, 0xf4, 0xf5, 0xf6, 0xf7];
    assert b[2..][2..] == [0xf4, 0xf5, 0xf6, 0xf7];
    assert b[2..][2..][2..] == [0xf6, 0xf7];
    WordsOfTwo(0xf6, 0xf7);
    assert Words([0xf4, 0xf5, 0xf6, 0xf7]) == 0xf4f5 + 0xf6f7;
    assert Words([0xf2, 0x03, 0xf4, 0xf5, 0xf6, 0xf7]) == 0xf203 + 0xf4f5 + 0xf6f7;
  }
}
