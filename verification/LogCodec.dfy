/**
 The codec of `internal/logs/alils/log.pb.go` in its own form: index-driven loops over the input,
 messages whose fields are set and appended to in place, and writers that store into a buffer
 allocated from `Size`. Every method is proved against the specification in LogMessages.

 The varint loop, which the generated code repeats at every use, is one method here, and so are the
 tag, length-delimited and unknown-field steps of the `Unmarshal` loops. A Go slice `data[i:]` that
 is written to is the array together with the offset i; one that is only read is a sequence.
 */
module LogCodec {
  import opened Basics
  import opened Wire
  import opened LogMessages

  // ---------- reading ----------

  /** `data[i:]`, and nothing once the index has run past the input. */
  function From(data: bytes, i: nat): bytes {
    if i <= |data| then data[i..] else []
  }

  lemma FromDrop(data: bytes, i: nat, n: nat)
    requires i + n <= |data|
    ensures From(data, i)[n..] == From(data, i + n)
    ensures From(data, i)[..n] == data[i..i + n]
  {
  }

  // The bits that group n of a varint adds.
  function Group(b: byte, n: nat): nat {
    b % 0x80 * Pow128(n)
  }

  // The part of a number that a variable of `modulus` values keeps.
  function Cut(x: nat, modulus: nat): nat
    requires modulus > 0
  {
    x % modulus
  }

  lemma CutSmall(x: nat, modulus: nat)
    requires x < modulus
    ensures Cut(x, modulus) == x
  {
  }

  lemma CutAdd(x: nat, y: nat, modulus: nat)
    requires modulus > 0
    ensures Cut(Cut(x, modulus) + y, modulus) == Cut(x + y, modulus)
  {
    ModAdd(x, y, modulus);
  }

  // What a varint read amounts to when `acc` has been collected from its first `n` groups.
  ghost function Resume(acc: nat, n: nat, r: Result<Scan, WireError>): Result<Scan, WireError> {
    match r
    case Err(e) => Err(e)
    case Ok(s) => Ok(Scan(acc + Pow128(n) * s.value, n + s.used))
  }

  // The first n groups from `start` on have all been continuation groups, and hold `acc`.
  ghost predicate Reading(data: bytes, start: nat, n: nat, acc: nat) {
    && n <= MAX_GROUPS
    && ReadVarint(From(data, start)) == Resume(acc, n, ReadGroups(From(data, start + n), MAX_GROUPS - n))
  }

  lemma FromStep(data: bytes, i: nat)
    requires i < |data|
    ensures From(data, i) != [] && From(data, i)[0] == data[i] && From(data, i)[1..] == From(data, i + 1)
  {
  }

  lemma ReadingStep(data: bytes, start: nat, n: nat, acc: nat)
    requires Reading(data, start, n, acc) && n < MAX_GROUPS && start + n < |data|
    ensures var b := data[start + n]; var acc' := acc + Group(b, n);
      if b < 0x80 then ReadVarint(From(data, start)) == Ok(Scan(acc', n + 1)) else Reading(data, start, n + 1, acc')
  {
    hide Group, From, Resume, ReadGroups, ReadVarint;
    FromStep(data, start + n);
    ResumeStep(acc, n, From(data, start + n), MAX_GROUPS - n);
  }

  lemma ReadingStart(data: bytes, start: nat)
    ensures Reading(data, start, 0, 0)
  {
    var r := ReadGroups(From(data, start), MAX_GROUPS);
    hide ReadGroups;
    assert Resume(0, 0, r) == r;
  }

  lemma ReadingFails(data: bytes, start: nat, n: nat, acc: nat)
    requires Reading(data, start, n, acc)
    ensures n == MAX_GROUPS ==> ReadVarint(From(data, start)) == Err(IntOverflow)
    ensures n < MAX_GROUPS && start + n >= |data| ==> ReadVarint(From(data, start)) == Err(UnexpectedEOF)
  {
  }

  lemma ResumeStep(acc: nat, n: nat, d: bytes, left: nat)
    requires left >= 1 && d != []
    ensures d[0] < 0x80 ==> Resume(acc, n, ReadGroups(d, left)) == Ok(Scan(acc + Group(d[0], n), n + 1))
    ensures d[0] >= 0x80 ==>
      Resume(acc, n, ReadGroups(d, left))
      == Resume(acc + Group(d[0], n), n + 1, ReadGroups(d[1..], left - 1))
  {
    if d[0] >= 0x80 && ReadGroups(d[1..], left - 1).Ok? {
      var v, p := ReadGroups(d[1..], left - 1).value.value, Pow128(n);
      Distribute(p, d[0] - 0x80, v);
    }
  }

  lemma Distribute(p: nat, b: nat, v: nat)
    ensures p * (b + 0x80 * v) == b * p + 0x80 * p * v
  {
  }

  lemma ShiftCounts(n: nat)
    ensures 7 * n / 7 == n && (7 * n >= 64 <==> n >= MAX_GROUPS)
  {
  }

  /**
   The varint loop into a variable of `modulus` values. Each group lands above the bits collected so
   far, so the `|=` of the original is an addition; bits shifted out of the word are lost.
   */
  method DecodeVarint(data: bytes, start: nat, modulus: nat) returns (v: nat, i: nat, err: Option<WireError>)
    requires modulus > 0
    ensures match ReadVarint(From(data, start))
      case Err(e) => err == Some(e)
      case Ok(s) => err == None && i == start + s.used <= |data| && v == Cut(s.value, modulus)
  {
    v, i, err := 0, start, None;
    var shift := 0;
    ghost var acc: nat, n: nat := 0, 0;
    ReadingStart(data, start);
    CutSmall(0, modulus);
    hide *;
    while true
      invariant i == start + n && shift == 7 * n && (n > 0 ==> i <= |data|)
      invariant v == Cut(acc, modulus)
      invariant Reading(data, start, n, acc)
      decreases MAX_GROUPS - n
    {
      ShiftCounts(n);
      ReadingFails(data, start, n, acc);
      if shift >= 64 {
        return v, i, Some(IntOverflow);
      }
      if i >= |data| {
        return v, i, Some(UnexpectedEOF);
      }
      var b := data[i];
      ReadingStep(data, start, n, acc);
      var group := Group(b, shift / 7);
      CutAdd(acc, group, modulus);
      v := Cut(v + group, modulus);
      acc, n := acc + group, n + 1;
      i := i + 1;
      if b < 0x80 {
        return;
      }
      shift := shift + 7;
    }
  }

  /** A length prefix as a signed `int`. */
  method DecodeLength(data: bytes, start: nat) returns (length: nat, i: nat, err: Option<WireError>)
    ensures match ReadLength(From(data, start))
      case Err(e) => err == Some(e)
      case Ok(s) => err == None && i == start + s.used <= |data| && length == s.value
  {
    length, i, err := DecodeVarint(data, start, TWO_64);
    if err == None && length >= TWO_63 {
      err := Some(InvalidLength);
    }
  }

  lemma WireTypeBits(wire: nat)
    ensures wire % TWO_64 % 8 == wire % 8
  {
  }

  method SkipLog(data: bytes) returns (n: nat, err: Option<WireError>)
    requires data != []
    ensures match Skip(data)
      case Err(e) => err == Some(e)
      case Ok(k) => err == None && n == k
    decreases |data|, 1
  {
    n := 0;
    var wire, i;
    assert From(data, 0) == data;
    wire, i, err := DecodeVarint(data, 0, TWO_64);
    if err.Some? {
      return;
    }
    WireTypeBits(ReadVarint(data).value.value);
    var wireType := wire % 8;
    assert Skip(data) == Shifted(SkipBody(wireType, From(data, i)), i);
    if wireType == 0 {
      var v;
      v, n, err := DecodeVarint(data, i, TWO_64);
    } else if wireType == 1 {
      n := i + 8;
    } else if wireType == 2 {
      var length;
      length, n, err := DecodeLength(data, i);
      n := n + length;
    } else if wireType == 3 {
      n, err := SkipGroupLog(data, i);
    } else if wireType == 4 {
      n := i;
    } else if wireType == 5 {
      n := i + 4;
    } else {
      err := Some(IllegalWireType);
    }
  }

  // Skipping the group from `begin` comes down to skipping the rest of it from i.
  ghost predicate InGroup(data: bytes, begin: nat, i: nat) {
    && begin <= |data|
    && Shifted(SkipGroup(data[begin..]), begin)
       == if i <= |data| then Shifted(SkipGroup(data[i..]), i) else Err(UnexpectedEOF)
  }

  lemma InGroupStep(data: bytes, begin: nat, i: nat, next: nat)
    requires InGroup(data, begin, i) && i <= |data| && Skip(data[i..]) == Ok(next)
    requires ReadVarint(data[i..]).Ok? && ReadVarint(data[i..]).value.value % 8 != 4
    ensures InGroup(data, begin, i + next)
  {
    hide Skip, ReadVarint;
    if i + next <= |data| {
      FromDrop(data, i, next);
    }
  }

  // How the loop over a group ends: at an error, or after an end marker.
  lemma InGroupEnd(data: bytes, begin: nat, i: nat)
    requires begin <= i && begin <= |data| && InGroup(data, begin, i)
    ensures match ReadVarint(From(data, i))
      case Err(e) => SkipGroup(data[begin..]) == Err(e)
      case Ok(tag) =>
        && (tag.value % 8 == 4 ==> SkipGroup(data[begin..]) == Ok(i + tag.used - begin))
        && (tag.value % 8 != 4 && Skip(From(data, i)).Err? ==> SkipGroup(data[begin..]) == Err(Skip(From(data, i)).error))
  {
    assert ReadVarint([]) == Err(UnexpectedEOF);
    hide Skip, ReadVarint;
  }

  /** The loop over the fields of a group, from the end of its start tag. */
  method SkipGroupLog(data: bytes, begin: nat) returns (i: nat, err: Option<WireError>)
    requires 1 <= begin <= |data|
    ensures match SkipGroup(data[begin..])
      case Err(e) => err == Some(e)
      case Ok(k) => err == None && i == begin + k
    decreases |data|, 0
  {
    i := begin;
    hide Skip, SkipGroup, ReadVarint;
    while true
      invariant begin <= i && InGroup(data, begin, i)
      decreases if i <= |data| then |data| - i + 1 else 0
    {
      var start := i;
      var innerWire;
      InGroupEnd(data, begin, start);
      innerWire, i, err := DecodeVarint(data, i, TWO_64);
      if err.Some? {
        return;
      }
      WireTypeBits(ReadVarint(data[start..]).value.value);
      if innerWire % 8 == 4 {
        return;
      }
      var next;
      next, err := SkipLog(data[start..]);
      if err.Some? {
        return;
      }
      i := start + next;
      InGroupStep(data, begin, start, next);
    }
  }

  // The parts the four `Unmarshal` loops share.

  method DecodeTag(data: bytes, start: nat) returns (num: int, wireType: nat, i: nat, err: Option<WireError>)
    requires start < |data|
    ensures match ReadTag(data[start..])
      case Err(e) => err == Some(e)
      case Ok(t) => err == None && num == t.num && wireType == t.wireType && i == start + t.used <= |data|
  {
    var wire;
    wire, i, err := DecodeVarint(data, start, TWO_64);
    num, wireType := ToInt32(wire / 8), wire % 8;
    if err.Some? {
      return;
    }
    WireTypeBits(ReadVarint(data[start..]).value.value);
    if wireType == 4 {
      err := Some(EndGroup);
    } else if num <= 0 {
      err := Some(IllegalTag);
    }
  }

  method DecodeBytes(data: bytes, start: nat, ghost num: int) returns (payload: bytes, i: nat, err: Option<WireError>)
    requires start <= |data|
    ensures match ScanPayload(num, 2, data[start..])
      case Err(e) => err == Some(e)
      case Ok(f) => err == None && f.field == BytesField(num, payload) && i == start + f.used <= |data|
  {
    var length;
    length, i, err := DecodeLength(data, start);
    if err.Some? {
      return [], i, err;
    }
    var postIndex := i + length;
    if postIndex > |data| {
      return [], i, Some(UnexpectedEOF);
    }
    payload := data[i..postIndex];
    assert data[start..][i - start..postIndex - start] == payload;
    i := postIndex;
  }

  method DecodeUnknown(data: bytes, preIndex: nat) returns (raw: bytes, i: nat, err: Option<WireError>)
    requires preIndex < |data|
    ensures match ScanUnknown(data[preIndex..])
      case Err(e) => err == Some(e)
      case Ok(f) => err == None && f.field == UnknownField(raw) && i == preIndex + f.used <= |data|
  {
    i := preIndex;
    var skippy;
    skippy, err := SkipLog(data[i..]);
    if err.Some? {
      return [], i, err;
    }
    if i + skippy > |data| {
      return [], i, Some(UnexpectedEOF);
    }
    raw := data[i..i + skippy];
    assert data[preIndex..][..skippy] == raw;
    i := i + skippy;
  }

  /** The turn of an `Unmarshal` loop up to the point where the field is stored. */
  method DecodeField(schema: Schema, data: bytes, preIndex: nat) returns (f: Field, i: nat, err: Option<WireError>)
    requires SchemaOk(schema) && preIndex < |data|
    ensures match ScanField(schema, data[preIndex..])
      case Err(e) => err == Some(e)
      case Ok(s) => err == None && f == s.field && i == preIndex + s.used <= |data|
  {
    f := UnknownField([]);
    hide ReadTag, ScanUnknown, Skip, ReadVarint;
    var fieldNum, wireType;
    fieldNum, wireType, i, err := DecodeTag(data, preIndex);
    if err.Some? {
      return;
    }
    DropDrop(data, preIndex, i);
    if fieldNum in schema {
      if wireType != schema[fieldNum] {
        return f, i, Some(WrongWireType(fieldNum));
      }
      if wireType == 0 {
        var v;
        v, i, err := DecodeVarint(data, i, TWO_32);
        if err == None {
          f := VarintField(fieldNum, v);
        }
      } else {
        var payload;
        payload, i, err := DecodeBytes(data, i, fieldNum);
        f := BytesField(fieldNum, payload);
      }
    } else {
      var raw;
      raw, i, err := DecodeUnknown(data, preIndex);
      f := UnknownField(raw);
    }
  }

  // The loop's verdict on the whole input is its verdict on what is left at i, from the state reached.
  ghost predicate Reached<S>(schema: Schema, apply: Apply<S>, verdict: Result<S, WireError>, data: bytes, s: S, i: nat) {
    i <= |data| && verdict == Fold(schema, apply, s, data[i..])
  }

  lemma ReachedStart<S>(schema: Schema, apply: Apply<S>, s: S, data: bytes)
    ensures Reached(schema, apply, Fold(schema, apply, s, data), data, s, 0)
  {
    assert data[0..] == data;
  }

  lemma ReachedTurn<S>(schema: Schema, apply: Apply<S>, verdict: Result<S, WireError>, data: bytes, s: S, i: nat)
    requires Reached(schema, apply, verdict, data, s, i) && i < |data|
    ensures var f := ScanField(schema, data[i..]);
      if f.Err? then verdict == Err(f.error)
      else if apply(s, f.value.field).Err? then verdict == Err(apply(s, f.value.field).error)
      else Reached(schema, apply, verdict, data, apply(s, f.value.field).value, i + f.value.used)
  {
    var f := ScanField(schema, data[i..]);
    if f.Ok? {
      DropDrop(data, i, i + f.value.used);
    }
  }

  lemma ReachedEnd<S>(schema: Schema, apply: Apply<S>, verdict: Result<S, WireError>, data: bytes, s: S)
    requires Reached(schema, apply, verdict, data, s, |data|)
    ensures verdict == Ok(s)
  {
  }

  // ---------- writing ----------

  method EncodeVarintLog(data: array<byte>, offset: nat, v: nat) returns (end: nat)
    requires offset + |EncVarint(v)| <= data.Length
    modifies data
    ensures end == offset + |EncVarint(v)|
    ensures Stored(old(data[..]), data[..], offset, EncVarint(v))
  {
    ghost var before, done: bytes := data[..], [];
    var x := v;
    end := offset;
    while x >= 0x80
      invariant end == offset + |done| && done + EncVarint(x) == EncVarint(v)
      invariant Stored(before, data[..], offset, done)
    {
      ghost var b := x % 0x80 + 0x80;
      data[end] := x % 0x80 + 0x80;
      ConcatAssoc(done, [b], EncVarint(x / 0x80));
      done := done + [b];
      x := x / 0x80;
      end := end + 1;
    }
    data[end] := x;
    end := end + 1;
  }

  method SovLog(v: nat) returns (n: nat)
    ensures n == |EncVarint(v)|
  {
    n := 0;
    var x := v;
    while true
      invariant n + |EncVarint(x)| == |EncVarint(v)|
      decreases x
    {
      n := n + 1;
      if x / 0x80 == 0 {
        break;
      }
      x := x / 0x80;
    }
  }

  // The size of an optional length-delimited field.
  method SizeOption(num: nat, payload: Option<bytes>) returns (n: nat)
    requires 1 <= num <= 15
    ensures n == |TaggedOption(num, payload)|
  {
    n := 0;
    if payload.Some? {
      var l := |payload.value|;
      var s := SovLog(l);
      n := 1 + l + s;
    }
  }

  // The size of a nested message of l bytes, with its tag and length.
  method SizeChild(num: nat, l: nat, ghost enc: bytes) returns (n: nat)
    requires 1 <= num <= 15 && l == |enc|
    ensures n == |Tagged(num, enc)|
  {
    var s := SovLog(l);
    n := 1 + l + s;
  }

  /** Go's `copy(data[at:], src)`. */
  method Copy(data: array<byte>, at: nat, src: bytes) returns (n: nat)
    requires at <= data.Length
    modifies data
    ensures n == if |src| <= data.Length - at then |src| else data.Length - at
    ensures Stored(old(data[..]), data[..], at, src[..n])
  {
    n := if |src| <= data.Length - at then |src| else data.Length - at;
    forall k | 0 <= k < n {
      data[at + k] := src[k];
    }
  }

  // The writers below go on from where a `MarshalTo` on the slice from `off` on has got to: `done` is
  // what it has stored so far over the buffer's contents `before`.

  // A tag, a length and as many bytes: the same lines for every string and bytes field.
  method PutTagged(data: array<byte>, start: nat, num: nat, payload: bytes,
                   ghost before: bytes, ghost off: nat, ghost done: bytes) returns (i: nat)
    requires 1 <= num <= 15 && start + |Tagged(num, payload)| <= data.Length
    requires start == off + |done| && Stored(before, data[..], off, done)
    modifies data
    ensures i == start + |Tagged(num, payload)|
    ensures Stored(before, data[..], off, done + Tagged(num, payload))
  {
    i := PutLength(data, start, num, |payload|, before, off, done);
    ghost var head := [8 * num + 2] + EncVarint(|payload|);
    i := PutRaw(data, i, payload, before, off, done + head);
    ConcatAssoc(done, head, payload);
  }

  method PutOption(data: array<byte>, start: nat, num: nat, payload: Option<bytes>,
                   ghost before: bytes, ghost off: nat, ghost done: bytes) returns (i: nat)
    requires 1 <= num <= 15 && start + |TaggedOption(num, payload)| <= data.Length
    requires start == off + |done| && Stored(before, data[..], off, done)
    modifies data
    ensures i == start + |TaggedOption(num, payload)|
    ensures Stored(before, data[..], off, done + TaggedOption(num, payload))
  {
    i := start;
    if payload.Some? {
      i := PutTagged(data, i, num, payload.value, before, off, done);
    } else {
      assert done + [] == done;
    }
  }

  method PutLength(data: array<byte>, start: nat, num: nat, length: nat,
                   ghost before: bytes, ghost off: nat, ghost done: bytes) returns (i: nat)
    requires 1 <= num <= 15 && start + 1 + |EncVarint(length)| <= data.Length
    requires start == off + |done| && Stored(before, data[..], off, done)
    modifies data
    ensures i == start + 1 + |EncVarint(length)|
    ensures Stored(before, data[..], off, done + ([8 * num + 2] + EncVarint(length)))
  {
    data[start] := 8 * num + 2;
    ghost var middle := data[..];
    i := EncodeVarintLog(data, start + 1, length);
    StoredTwice(before, middle, data[..], off, done + [8 * num + 2], EncVarint(length));
    ConcatAssoc(done, [8 * num + 2], EncVarint(length));
  }

  method PutVarint(data: array<byte>, start: nat, num: nat, value: nat, ghost before: bytes) returns (i: nat)
    requires 1 <= num <= 15 && start + |TaggedVarint(num, value)| <= data.Length && data[..] == before
    modifies data
    ensures i == start + |TaggedVarint(num, value)|
    ensures Stored(before, data[..], start, TaggedVarint(num, value))
  {
    data[start] := 8 * num;
    ghost var middle := data[..];
    i := EncodeVarintLog(data, start + 1, value);
    StoredTwice(before, middle, data[..], start, [8 * num], EncVarint(value));
  }

  method PutRaw(data: array<byte>, start: nat, raw: bytes,
                ghost before: bytes, ghost off: nat, ghost done: bytes) returns (i: nat)
    requires start + |raw| <= data.Length
    requires start == off + |done| && Stored(before, data[..], off, done)
    modifies data
    ensures i == start + |raw|
    ensures Stored(before, data[..], off, done + raw)
  {
    ghost var middle := data[..];
    var n := Copy(data, start, raw);
    assert raw[..n] == raw;
    StoredTwice(before, middle, data[..], off, done, raw);
    i := start + n;
  }

  ghost predicate OnlyWithin(before: bytes, after: bytes, off: nat, size: nat) {
    && |after| == |before| && off + size <= |before|
    && forall k :: 0 <= k < |after| && !(off <= k < off + size) ==> after[k] == before[k]
  }

  /**
   What a call of `MarshalTo` on the slice from `off` on has done: it fails exactly when a required
   field is missing; otherwise it has written the encoding and reports its length. In either case it
   has not touched a byte outside the encoding's place.
   */
  ghost predicate Written(before: bytes, after: bytes, off: nat,
                          missing: Option<WireError>, enc: bytes, n: nat, err: Option<WireError>) {
    && err == missing
    && OnlyWithin(before, after, off, |enc|)
    && (err == None ==> n == |enc| && Stored(before, after, off, enc))
    && (err.Some? ==> n == 0)
  }

  lemma StoredWithin(before: bytes, after: bytes, off: nat, done: bytes, size: nat)
    requires Stored(before, after, off, done) && |done| <= size && off + size <= |before|
    ensures OnlyWithin(before, after, off, size)
  {
  }

  lemma {:induction false} EncAllPrefix<M>(num: nat, enc: M -> bytes, ms: seq<M>, k: nat)
    requires 1 <= num <= 15 && k < |ms|
    ensures EncAll(num, enc, ms[..k + 1]) == EncAll(num, enc, ms[..k]) + Tagged(num, enc(ms[k]))
    ensures |EncAll(num, enc, ms[..k + 1])| <= |EncAll(num, enc, ms)|
    decreases |ms|
  {
    assert ms[..k + 1][..k] == ms[..k];
    if k + 1 == |ms| {
      assert ms[..k + 1] == ms;
    } else {
      assert ms[..|ms| - 1][..k + 1] == ms[..k + 1] && ms[..|ms| - 1][..k] == ms[..k];
      EncAllPrefix(num, enc, ms[..|ms| - 1], k);
    }
  }

  lemma EncAllSize<M>(num: nat, enc: M -> bytes, ms: seq<M>, k: nat)
    requires 1 <= num <= 15 && k < |ms|
    ensures |EncAll(num, enc, ms[..k + 1])| == |EncAll(num, enc, ms[..k])| + |Tagged(num, enc(ms[k]))|
  {
    EncAllPrefix(num, enc, ms, k);
  }

  lemma {:induction false} FirstMissingAt<M>(missing: M -> Option<WireError>, ms: seq<M>, k: nat)
    requires k < |ms| && FirstMissing(missing, ms[..k]) == None
    ensures FirstMissing(missing, ms[..k + 1]) == missing(ms[k])
    ensures missing(ms[k]).Some? ==> FirstMissing(missing, ms) == missing(ms[k])
    decreases |ms|
  {
    assert ms[..k + 1][..k] == ms[..k];
    if k + 1 == |ms| {
      assert ms[..k + 1] == ms;
    } else {
      assert ms[..|ms| - 1][..k + 1] == ms[..k + 1] && ms[..|ms| - 1][..k] == ms[..k];
      FirstMissingAt(missing, ms[..|ms| - 1], k);
    }
  }

  // The size of the first k submessages never exceeds that of all of them, and the first one that is
  // incomplete decides the error.
  lemma ChildFacts<M>(num: nat, enc: M -> bytes, missing: M -> Option<WireError>, ms: seq<M>, k: nat)
    requires 1 <= num <= 15 && k < |ms| && FirstMissing(missing, ms[..k]) == None
    ensures EncAll(num, enc, ms[..k + 1]) == EncAll(num, enc, ms[..k]) + Tagged(num, enc(ms[k]))
    ensures |EncAll(num, enc, ms[..k + 1])| <= |EncAll(num, enc, ms)|
    ensures FirstMissing(missing, ms[..k + 1]) == missing(ms[k])
    ensures missing(ms[k]).Some? ==> FirstMissing(missing, ms) == missing(ms[k])
  {
    EncAllPrefix(num, enc, ms, k);
    FirstMissingAt(missing, ms, k);
  }

  // A loop that writes submessages: after `head`, into the `size` bytes from `off` on.
  datatype Children<!M> = Children(num: nat, enc: M -> bytes, missing: M -> Option<WireError>, ms: seq<M>,
                                   before: bytes, off: nat, head: bytes, size: nat)

  // head + rest; an empty head is no part of it.
  function Joined(head: bytes, rest: bytes): bytes {
    if head == [] then rest else head + rest
  }

  // The first k submessages are complete and written; `done` is all that is written, up to index i.
  ghost predicate Putting<M>(c: Children<M>, k: nat, i: nat, now: bytes, done: bytes) {
    && 1 <= c.num <= 15 && |c.head| + |EncAll(c.num, c.enc, c.ms)| <= c.size && c.off + c.size <= |c.before|
    && k <= |c.ms| && FirstMissing(c.missing, c.ms[..k]) == None
    && done == Joined(c.head, EncAll(c.num, c.enc, c.ms[..k]))
    && i == c.off + |done| && Stored(c.before, now, c.off, done)
  }

  lemma PuttingStart<M>(c: Children<M>, now: bytes)
    requires 1 <= c.num <= 15 && |c.head| + |EncAll(c.num, c.enc, c.ms)| <= c.size && c.off + c.size <= |c.before|
    requires Stored(c.before, now, c.off, c.head)
    ensures Putting(c, 0, c.off + |c.head|, now, c.head)
  {
    assert c.head + [] == c.head;
  }

  // There is room for the next submessage.
  lemma PuttingRoom<M>(c: Children<M>, k: nat, i: nat, now: bytes, done: bytes)
    requires Putting(c, k, i, now, done) && k < |c.ms|
    ensures i == c.off + |done| && Stored(c.before, now, c.off, done)
    ensures |done| + |Tagged(c.num, c.enc(c.ms[k]))| <= c.size && c.off + c.size <= |c.before|
  {
    ChildFacts(c.num, c.enc, c.missing, c.ms, k);
    hide EncAll, FirstMissing, Tagged;
  }

  lemma PuttingNext<M>(c: Children<M>, k: nat, i: nat, now: bytes, done: bytes, after: bytes)
    requires Putting(c, k, i, now, done) && k < |c.ms|
    ensures c.missing(c.ms[k]).Some? ==> FirstMissing(c.missing, c.ms) == c.missing(c.ms[k])
    ensures var t := Tagged(c.num, c.enc(c.ms[k]));
      c.missing(c.ms[k]) == None && Stored(c.before, after, c.off, done + t) ==> Putting(c, k + 1, i + |t|, after, done + t)
  {
    ChildFacts(c.num, c.enc, c.missing, c.ms, k);
    if c.head != [] {
      ConcatAssoc(c.head, EncAll(c.num, c.enc, c.ms[..k]), Tagged(c.num, c.enc(c.ms[k])));
    }
    hide EncAll, FirstMissing, Tagged, Stored;
  }

  lemma PuttingEnd<M>(c: Children<M>, i: nat, now: bytes, done: bytes)
    requires Putting(c, |c.ms|, i, now, done)
    ensures FirstMissing(c.missing, c.ms) == None
    ensures c.head == [] ==> done == EncAll(c.num, c.enc, c.ms)
    ensures c.head != [] ==> done == c.head + EncAll(c.num, c.enc, c.ms)
    ensures i == c.off + |done| && Stored(c.before, now, c.off, done)
  {
    assert c.ms[..|c.ms|] == c.ms;
  }

  lemma TaggedAfter(num: nat, done: bytes, enc: bytes)
    requires 1 <= num <= 15
    ensures done + ([8 * num + 2] + EncVarint(|enc|)) + enc == done + Tagged(num, enc)
  {
    ConcatAssoc(done, [8 * num + 2] + EncVarint(|enc|), enc);
  }

  // A child has been marshalled at the end of what is written so far (`done` includes its length).
  lemma ChildDone(before: bytes, middle: bytes, after: bytes, off: nat, done: bytes, size: nat,
                  missing: Option<WireError>, enc: bytes, n: nat, err: Option<WireError>)
    requires Stored(before, middle, off, done) && Written(middle, after, off + |done|, missing, enc, n, err)
    requires |done| + |enc| <= size && off + size <= |before|
    ensures OnlyWithin(before, after, off, size)
    ensures err == None ==> Stored(before, after, off, done + enc)
  {
    if err == None {
      StoredTwice(before, middle, after, off, done, enc);
    }
  }
}
