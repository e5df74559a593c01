/**
 The wire layer of the Protocol Buffers encoding as `internal/logs/alils/log.pb.go` reads it:
 base-128 varints, field tags, and the skipper for fields a message does not know.

 Everything here works on the bytes that are still to be read (the suffix `data[iNdEx:]`), so that
 a result never depends on where in the input a field stands.
 */
module Wire {
  import opened Basics

  datatype WireError =
    | IntOverflow
    | UnexpectedEOF
    | InvalidLength
    | EndGroup
    | IllegalTag
    | IllegalWireType
    | WrongWireType(field: int)
    | RequiredNotSet(name: string)

  // A value together with the number of bytes it was read from.
  datatype Scan = Scan(value: nat, used: nat)

  const MAX_GROUPS: nat := 10  // shift = 0, 7, .., 63

  // ---------- base-128 varints ----------

  /** Reads at most `left` seven-bit groups. The value is not yet cut to a machine width. */
  function ReadGroups(d: bytes, left: nat): (r: Result<Scan, WireError>)
    ensures r.Ok? ==> 1 <= r.value.used <= |d| && r.value.used <= left
  {
    if left == 0 then Err(IntOverflow)
    else if d == [] then Err(UnexpectedEOF)
    else if d[0] < 0x80 then Ok(Scan(d[0], 1))
    else
      match ReadGroups(d[1..], left - 1)
      case Err(e) => Err(e)
      case Ok(s) => Ok(Scan(d[0] - 0x80 + 0x80 * s.value, s.used + 1))
  }

  function ReadVarint(d: bytes): (r: Result<Scan, WireError>)
    ensures r.Ok? ==> 1 <= r.value.used <= |d| && r.value.used <= MAX_GROUPS
  {
    ReadGroups(d, MAX_GROUPS)
  }

  function EncVarint(v: nat): (e: bytes)
    ensures |e| >= 1
  {
    if v < 0x80 then [v] else [v % 0x80 + 0x80] + EncVarint(v / 0x80)
  }

  function Pow128(n: nat): (p: nat)
    ensures p >= 1
  {
    if n == 0 then 1 else 0x80 * Pow128(n - 1)
  }

  lemma {:induction false} EncVarintSize(v: nat, n: nat)
    requires n >= 1 && v < Pow128(n)
    ensures |EncVarint(v)| <= n
  {
    if v >= 0x80 {
      assert Pow128(1) == 0x80;
      EncVarintSize(v / 0x80, n - 1);
    }
  }

  lemma {:induction false} EncVarintMonotone(v: nat, w: nat)
    requires v <= w
    ensures |EncVarint(v)| <= |EncVarint(w)|
  {
    if v >= 0x80 {
      EncVarintMonotone(v / 0x80, w / 0x80);
    }
  }

  lemma {:induction false} ReadEncoded(v: nat, left: nat, t: bytes)
    requires left >= 1 && v < Pow128(left)
    ensures ReadGroups(EncVarint(v) + t, left) == Ok(Scan(v, |EncVarint(v)|))
  {
    var d := EncVarint(v) + t;
    if v >= 0x80 {
      assert Pow128(1) == 0x80;
      assert d[1..] == EncVarint(v / 0x80) + t;
      ReadEncoded(v / 0x80, left - 1, t);
    }
  }

  /** Every 64-bit value is read back from its canonical encoding, whatever follows it. */
  lemma VarintRoundTrip(v: nat, t: bytes)
    requires v < TWO_64
    ensures ReadVarint(EncVarint(v) + t) == Ok(Scan(v, |EncVarint(v)|))
  {
    assert v < Pow128(10) by { Pow128Ten(); }
    ReadEncoded(v, MAX_GROUPS, t);
  }

  lemma Pow128Ten()
    ensures Pow128(10) == 64 * TWO_64
  {
    assert Pow128(2) == 0x4000;
    assert Pow128(4) == 0x1000_0000;
    assert Pow128(6) == 0x400_0000_0000;
    assert Pow128(8) == 0x100_0000_0000_0000;
  }

  lemma {:induction false} ReadGroupsBounded(d: bytes, left: nat)
    requires ReadGroups(d, left).Ok?
    ensures ReadGroups(d, left).value.value < Pow128(ReadGroups(d, left).value.used)
  {
    var s := ReadGroups(d, left).value;
    if d[0] < 0x80 {
      assert Pow128(1) == 0x80 * Pow128(0);
    } else {
      ReadGroupsBounded(d[1..], left - 1);
    }
  }

  /** Re-encoding a varint never needs more bytes than it was read from, even after truncation. */
  lemma CanonicalIsShortest(d: bytes, v: nat)
    requires ReadVarint(d).Ok? && v <= ReadVarint(d).value.value
    ensures |EncVarint(v)| <= ReadVarint(d).value.used
  {
    var s := ReadVarint(d).value;
    ReadGroupsBounded(d, MAX_GROUPS);
    EncVarintSize(s.value, s.used);
    EncVarintMonotone(v, s.value);
  }

  // Both inputs start with the same n bytes.
  predicate Agree(a: bytes, b: bytes, n: nat) {
    n <= |a| && n <= |b| && a[..n] == b[..n]
  }

  lemma {:induction false} ReadGroupsLocal(d: bytes, e: bytes, left: nat)
    requires ReadGroups(d, left).Ok? && Agree(d, e, ReadGroups(d, left).value.used)
    ensures ReadGroups(e, left) == ReadGroups(d, left)
  {
    var n := ReadGroups(d, left).value.used;
    assert d[0] == d[..n][0] == e[..n][0] == e[0];
    if d[0] >= 0x80 {
      assert d[1..][..n - 1] == d[..n][1..] == e[..n][1..] == e[1..][..n - 1];
      ReadGroupsLocal(d[1..], e[1..], left - 1);
    }
  }

  lemma ReadVarintLocal(d: bytes, e: bytes)
    requires ReadVarint(d).Ok? && Agree(d, e, ReadVarint(d).value.used)
    ensures ReadVarint(e) == ReadVarint(d)
  {
    ReadGroupsLocal(d, e, MAX_GROUPS);
  }

  lemma AgreeDrop(d: bytes, e: bytes, n: nat, k: nat)
    requires k <= n && Agree(d, e, n)
    ensures Agree(d[k..], e[k..], n - k) && Agree(d, e, k)
  {
    assert d[k..][..n - k] == d[..n][k..] == e[..n][k..] == e[k..][..n - k];
    assert d[..k] == d[..n][..k] == e[..n][..k] == e[..k];
  }

  // ---------- length-delimited payloads ----------

  /** The length prefix as a Go `int`: values from 2^63 on are negative there and are refused. */
  function ReadLength(d: bytes): (r: Result<Scan, WireError>)
    ensures r.Ok? ==> 1 <= r.value.used <= |d| && r.value.value < TWO_63
  {
    match ReadVarint(d)
    case Err(e) => Err(e)
    case Ok(s) =>
      var len := s.value % TWO_64;
      if len >= TWO_63 then Err(InvalidLength) else Ok(Scan(len, s.used))
  }

  // ---------- skipping a field ----------

  function Shifted(r: Result<nat, WireError>, k: nat): Result<nat, WireError> {
    match r
    case Err(e) => Err(e)
    case Ok(n) => Ok(k + n)
  }

  /**
   The number of bytes of the field at the front of `d`. As in `skipLog`, a fixed-width or
   length-delimited field may reach beyond the input: the caller compares the result with |d|.
   */
  function Skip(d: bytes): (r: Result<nat, WireError>)
    ensures r.Ok? ==> r.value >= 1
    decreases |d|, 0
  {
    match ReadVarint(d)
    case Err(e) => Err(e)
    case Ok(t) => Shifted(SkipBody(t.value % 8, d[t.used..]), t.used)
  }

  /** The bytes a field of the given wire type takes after its tag. */
  function SkipBody(wireType: nat, d: bytes): Result<nat, WireError>
    decreases |d|, 2
  {
    if wireType == 0 then
      match ReadVarint(d)
      case Err(e) => Err(e)
      case Ok(s) => Ok(s.used)
    else if wireType == 1 then Ok(8)
    else if wireType == 2 then
      match ReadLength(d)
      case Err(e) => Err(e)
      case Ok(s) => Ok(s.used + s.value)
    else if wireType == 3 then SkipGroup(d)
    else if wireType == 4 then Ok(0)
    else if wireType == 5 then Ok(4)
    else Err(IllegalWireType)
  }

  /** The bytes of a group after its start tag, up to and including its end tag. */
  function SkipGroup(d: bytes): (r: Result<nat, WireError>)
    ensures r.Ok? ==> 1 <= r.value <= |d|
    decreases |d|, 1
  {
    match ReadVarint(d)
    case Err(e) => Err(e)
    case Ok(t) =>
      if t.value % 8 == 4 then Ok(t.used)
      else
        match Skip(d)
        case Err(e) => Err(e)
        case Ok(n) =>
          if n > |d| then Err(UnexpectedEOF)
          else
            match SkipGroup(d[n..])
            case Err(e) => Err(e)
            case Ok(k) => Ok(n + k)
  }

  /** A result inside the input depends on the skipped bytes alone. */
  lemma {:induction false} SkipLocal(d: bytes, e: bytes)
    requires Skip(d).Ok? && Agree(d, e, Skip(d).value)
    ensures Skip(e) == Skip(d)
    decreases |d|, 0
  {
    var n, t := Skip(d).value, ReadVarint(d).value;
    AgreeDrop(d, e, n, t.used);
    ReadVarintLocal(d, e);
    SkipBodyLocal(t.value % 8, d[t.used..], e[t.used..]);
  }

  lemma {:induction false} SkipBodyLocal(wireType: nat, d: bytes, e: bytes)
    requires SkipBody(wireType, d).Ok? && Agree(d, e, SkipBody(wireType, d).value)
    ensures SkipBody(wireType, e) == SkipBody(wireType, d)
    decreases |d|, 2
  {
    if wireType == 0 {
      ReadVarintLocal(d, e);
    } else if wireType == 2 {
      AgreeDrop(d, e, SkipBody(wireType, d).value, ReadVarint(d).value.used);
      ReadVarintLocal(d, e);
    } else if wireType == 3 {
      SkipGroupLocal(d, e);
    }
  }

  lemma {:induction false} SkipGroupLocal(d: bytes, e: bytes)
    requires SkipGroup(d).Ok? && Agree(d, e, SkipGroup(d).value)
    ensures SkipGroup(e) == SkipGroup(d)
    decreases |d|, 1
  {
    var n, t := SkipGroup(d).value, ReadVarint(d).value;
    if t.value % 8 == 4 {
      ReadVarintLocal(d, e);
    } else {
      var k := Skip(d).value;
      AgreeDrop(d, e, n, k);
      SkipUsesTag(d);
      AgreeDrop(d, e, n, t.used);
      ReadVarintLocal(d, e);
      SkipLocal(d, e);
      SkipGroupLocal(d[k..], e[k..]);
    }
  }

  lemma SkipUsesTag(d: bytes)
    requires Skip(d).Ok?
    ensures ReadVarint(d).Ok? && ReadVarint(d).value.used <= Skip(d).value
  {
  }

  /** Whatever follows a skipped field does not matter. */
  lemma SkipIgnoresSuffix(d: bytes, t: bytes)
    requires Skip(d).Ok? && Skip(d).value <= |d|
    ensures Skip(d[..Skip(d).value] + t) == Skip(d)
  {
    SkipLocal(d, d[..Skip(d).value] + t);
  }
}
