/**
 The four nested messages of `internal/logs/alils/log.pb.go` as values, what `MarshalTo` writes for
 them and what `Unmarshal` makes of an arbitrary byte string.

 Each `Unmarshal` loop scans one field at the front of the remaining input and applies it to the
 receiver. The scan depends only on the field numbers and wire types a message declares, so it and
 the loop are defined once; the four `Apply` functions say what each message does with a field.
 */
module LogMessages {
  import opened Basics
  import opened Wire

  // ---------- one field ----------

  datatype Field =
    | VarintField(num: int, value: uint32)
    | BytesField(num: int, payload: bytes)
    | UnknownField(raw: bytes)

  datatype Scanned = Scanned(field: Field, used: nat)

  datatype Tag = Tag(num: int, wireType: nat, used: nat)

  // Declared field numbers with the one wire type each accepts: 0 varint, 2 length-delimited.
  type Schema = map<int, nat>

  const ContentSchema: Schema := map[1 := 2, 2 := 2]
  const LogSchema: Schema := map[1 := 0, 2 := 2]
  const GroupSchema: Schema := map[1 := 2, 2 := 2, 3 := 2, 4 := 2]
  const ListSchema: Schema := map[1 := 2]

  predicate SchemaOk(schema: Schema) {
    forall num :: num in schema ==> 1 <= num <= 15 && (schema[num] == 0 || schema[num] == 2)
  }

  /** `int32(wire >> 3)` of the 64 bits a tag keeps. */
  function FieldNumber(wire: nat): int {
    ToInt32(wire % TWO_64 / 8)
  }

  function ReadTag(d: bytes): (r: Result<Tag, WireError>)
    ensures r.Ok? ==> 1 <= r.value.used <= |d| && r.value.num > 0 && r.value.wireType < 8
  {
    match ReadVarint(d)
    case Err(e) => Err(e)
    case Ok(s) =>
      var num := FieldNumber(s.value);
      if s.value % 8 == 4 then Err(EndGroup)
      else if num <= 0 then Err(IllegalTag)
      else Ok(Tag(num, s.value % 8, s.used))
  }

  /**
   The payload of a declared field, whose wire type has been checked; `used` counts from the payload.
   The one varint field any message declares is a uint32.
   */
  function ScanPayload(num: int, wireType: nat, d: bytes): (r: Result<Scanned, WireError>)
    ensures r.Ok? ==> 1 <= r.value.used <= |d| && !r.value.field.UnknownField? && r.value.field.num == num
    ensures r.Ok? && r.value.field.BytesField? ==> |r.value.field.payload| < r.value.used
  {
    if wireType == 0 then
      match ReadVarint(d)
      case Err(e) => Err(e)
      case Ok(s) => Ok(Scanned(VarintField(num, s.value % TWO_32), s.used))
    else
      match ReadLength(d)
      case Err(e) => Err(e)
      case Ok(s) =>
        var end := s.used + s.value;
        if end > |d| then Err(UnexpectedEOF) else Ok(Scanned(BytesField(num, d[s.used..end]), end))
  }

  /** A field that is not declared is kept as it is, tag included. */
  function ScanUnknown(d: bytes): (r: Result<Scanned, WireError>)
    ensures r.Ok? ==> 1 <= r.value.used <= |d| && r.value.field == UnknownField(d[..r.value.used])
  {
    match Skip(d)
    case Err(e) => Err(e)
    case Ok(n) => if n > |d| then Err(UnexpectedEOF) else Ok(Scanned(UnknownField(d[..n]), n))
  }

  /** One turn of an `Unmarshal` loop up to the point where the field is stored. */
  function ScanField(schema: Schema, d: bytes): (r: Result<Scanned, WireError>)
    ensures r.Ok? ==> 1 <= r.value.used <= |d|
    ensures r.Ok? && r.value.field.BytesField? ==> |r.value.field.payload| < r.value.used
  {
    match ReadTag(d)
    case Err(e) => Err(e)
    case Ok(tag) =>
      if tag.num !in schema then ScanUnknown(d)
      else if tag.wireType != schema[tag.num] then Err(WrongWireType(tag.num))
      else
        match ScanPayload(tag.num, tag.wireType, d[tag.used..])
        case Err(e) => Err(e)
        case Ok(f) => Ok(Scanned(f.field, tag.used + f.used))
  }

  lemma ReadTagLocal(d: bytes, e: bytes)
    requires ReadTag(d).Ok? && Agree(d, e, ReadTag(d).value.used)
    ensures ReadTag(e) == ReadTag(d)
  {
    ReadVarintLocal(d, e);
  }

  lemma ScanPayloadLocal(num: int, wireType: nat, d: bytes, e: bytes)
    requires ScanPayload(num, wireType, d).Ok? && Agree(d, e, ScanPayload(num, wireType, d).value.used)
    ensures ScanPayload(num, wireType, e) == ScanPayload(num, wireType, d)
  {
    var n, s := ScanPayload(num, wireType, d).value.used, ReadVarint(d).value;
    AgreeDrop(d, e, n, s.used);
    ReadVarintLocal(d, e);
    assert d[s.used..n] == d[..n][s.used..] == e[..n][s.used..] == e[s.used..n];
  }

  lemma ScanUnknownLocal(d: bytes, e: bytes)
    requires ScanUnknown(d).Ok? && Agree(d, e, ScanUnknown(d).value.used)
    ensures ScanUnknown(e) == ScanUnknown(d)
    ensures ReadVarint(d).Ok? && ReadVarint(d).value.used <= ScanUnknown(d).value.used
  {
    SkipLocal(d, e);
    SkipUsesTag(d);
  }

  /** A scanned field depends on its own bytes only. */
  lemma ScanFieldLocal(schema: Schema, d: bytes, e: bytes)
    requires ScanField(schema, d).Ok? && Agree(d, e, ScanField(schema, d).value.used)
    ensures ScanField(schema, e) == ScanField(schema, d)
  {
    var n, tag := ScanField(schema, d).value.used, ReadTag(d).value;
    if tag.num in schema {
      AgreeDrop(d, e, n, tag.used);
      ReadTagLocal(d, e);
      ScanPayloadLocal(tag.num, tag.wireType, d[tag.used..], e[tag.used..]);
    } else {
      ScanUnknownLocal(d, e);
      AgreeDrop(d, e, n, tag.used);
      ReadTagLocal(d, e);
    }
  }

  // ---------- the loop ----------

  type Apply<!S> = (S, Field) -> Result<S, WireError>

  function Fold<S>(schema: Schema, apply: Apply<S>, s: S, d: bytes): Result<S, WireError>
    decreases |d|
  {
    if d == [] then Ok(s)
    else
      match ScanField(schema, d)
      case Err(e) => Err(e)
      case Ok(f) =>
        match apply(s, f.field)
        case Err(e) => Err(e)
        case Ok(s') => Fold(schema, apply, s', d[f.used..])
  }

  /** After an accepted prefix the loop goes on with the rest, in the state it has reached. */
  lemma {:induction false} FoldConcat<S>(schema: Schema, apply: Apply<S>, s: S, a: bytes, b: bytes)
    requires Fold(schema, apply, s, a).Ok?
    ensures Fold(schema, apply, s, a + b) == Fold(schema, apply, Fold(schema, apply, s, a).value, b)
    decreases |a|
  {
    if a == [] {
      assert a + b == b;
    } else {
      var f := ScanField(schema, a).value;
      ScanFieldLocal(schema, a, a + b);
      ConcatSplit(a, b, f.used);
      FoldConcat(schema, apply, apply(s, f.field).value, a[f.used..], b);
    }
  }

  lemma FoldStep<S>(schema: Schema, apply: Apply<S>, s: S, f: Field, p: bytes, t: bytes)
    requires ScanField(schema, p + t) == Ok(Scanned(f, |p|)) && apply(s, f).Ok?
    ensures Fold(schema, apply, s, p + t) == Fold(schema, apply, apply(s, f).value, t)
  {
    DropConcat(p, t);
  }

  // ---------- canonical fields ----------

  function Tagged(num: nat, payload: bytes): bytes
    requires 1 <= num <= 15
  {
    [8 * num + 2] + EncVarint(|payload|) + payload
  }

  function TaggedOption(num: nat, payload: Option<bytes>): bytes
    requires 1 <= num <= 15
  {
    match payload
    case None => []
    case Some(p) => Tagged(num, p)
  }

  function TaggedVarint(num: nat, value: nat): bytes
    requires 1 <= num <= 15
  {
    [8 * num] + EncVarint(value)
  }

  lemma ReadSmallTag(num: nat, wireType: nat, t: bytes)
    requires 1 <= num <= 15 && wireType < 8 && wireType != 4
    ensures ReadTag([8 * num + wireType] + t) == Ok(Tag(num, wireType, 1))
  {
  }

  lemma ScanTagged(schema: Schema, num: nat, payload: bytes, t: bytes)
    requires 1 <= num <= 15 && num in schema && schema[num] == 2 && |payload| < TWO_63
    ensures ScanField(schema, Tagged(num, payload) + t)
         == Ok(Scanned(BytesField(num, payload), |Tagged(num, payload)|))
  {
    var rest := EncVarint(|payload|) + (payload + t);
    assert Tagged(num, payload) + t == [8 * num + 2] + rest;
    ReadSmallTag(num, 2, rest);
    assert ([8 * num + 2] + rest)[1..] == rest;
    ScanBytesPayload(num, payload, t);
  }

  lemma LengthRoundTrip(len: nat, t: bytes)
    requires len < TWO_63
    ensures ReadLength(EncVarint(len) + t) == Ok(Scan(len, |EncVarint(len)|))
  {
    VarintRoundTrip(len, t);
  }

  lemma ScanBytesPayload(num: int, payload: bytes, t: bytes)
    requires |payload| < TWO_63
    ensures ScanPayload(num, 2, EncVarint(|payload|) + (payload + t))
         == Ok(Scanned(BytesField(num, payload), |EncVarint(|payload|)| + |payload|))
  {
    LengthRoundTrip(|payload|, payload + t);
    ConcatMiddle(EncVarint(|payload|), payload, t);
  }

  lemma ScanTaggedVarint(schema: Schema, num: nat, value: nat, t: bytes)
    requires 1 <= num <= 15 && num in schema && schema[num] == 0 && value < TWO_32
    ensures ScanField(schema, TaggedVarint(num, value) + t)
         == Ok(Scanned(VarintField(num, value), |TaggedVarint(num, value)|))
  {
    var rest := EncVarint(value) + t;
    assert TaggedVarint(num, value) + t == [8 * num] + rest;
    ReadSmallTag(num, 0, rest);
    assert ([8 * num] + rest)[1..] == rest;
    VarintRoundTrip(value, t);
  }

  // ---------- unknown fields ----------

  /** `u` is a concatenation of fields the schema does not declare, as `XXXUnrecognized` collects them. */
  predicate UnknownOnly(schema: Schema, u: bytes)
    decreases |u|
  {
    u == [] ||
    match ScanField(schema, u)
    case Err(_) => false
    case Ok(f) => f.field.UnknownField? && UnknownOnly(schema, u[f.used..])
  }

  lemma UnknownCons(schema: Schema, p: bytes, t: bytes)
    requires ScanField(schema, p).Ok? && ScanField(schema, p).value == Scanned(UnknownField(p), |p|)
    requires UnknownOnly(schema, t)
    ensures UnknownOnly(schema, p + t)
  {
    ScanFieldLocal(schema, p, p + t);
    DropConcat(p, t);
  }

  // An unknown field, scanned at the front of d, is also scanned when it stands alone.
  lemma UnknownAlone(schema: Schema, d: bytes)
    requires ScanField(schema, d).Ok? && ScanField(schema, d).value.field.UnknownField?
    ensures var f := ScanField(schema, d).value;
      f.field.raw == d[..f.used] && ScanField(schema, d[..f.used]) == Ok(f) && UnknownOnly(schema, f.field.raw)
  {
    var n := ScanField(schema, d).value.used;
    ScanFieldLocal(schema, d, d[..n]);
    assert d[..n][n..] == [];
  }

  lemma {:induction false} UnknownConcat(schema: Schema, a: bytes, b: bytes)
    requires UnknownOnly(schema, a) && UnknownOnly(schema, b)
    ensures UnknownOnly(schema, a + b)
    decreases |a|
  {
    if a == [] {
      assert a + b == b;
    } else {
      var n := ScanField(schema, a).value.used;
      UnknownAlone(schema, a);
      UnknownConcat(schema, a[n..], b);
      UnknownCons(schema, a[..n], a[n..] + b);
      ConcatSplit(a, b, n);
    }
  }

  // ---------- what a scan yields ----------

  /** `f` is a field the schema allows, and its canonical form takes at most `used` bytes. */
  predicate Fits(schema: Schema, f: Field, used: nat) {
    match f
    case VarintField(num, v) =>
      num in schema && schema[num] == 0 && 1 <= num <= 15 && |TaggedVarint(num, v)| <= used
    case BytesField(num, p) =>
      num in schema && schema[num] == 2 && 1 <= num <= 15 && |Tagged(num, p)| <= used
    case UnknownField(raw) => |raw| <= used && UnknownOnly(schema, raw)
  }

  lemma ScannedFits(schema: Schema, d: bytes)
    requires SchemaOk(schema) && ScanField(schema, d).Ok?
    ensures Fits(schema, ScanField(schema, d).value.field, ScanField(schema, d).value.used)
  {
    match ScanField(schema, d).value.field
    case VarintField(_, v) => CanonicalIsShortest(d[ReadTag(d).value.used..], v);
    case BytesField(_, p) => CanonicalIsShortest(d[ReadTag(d).value.used..], |p|);
    case UnknownField(_) => UnknownAlone(schema, d);
  }

  lemma TaggedMonotone(num: nat, p: bytes, q: bytes)
    requires 1 <= num <= 15 && |p| <= |q|
    ensures |Tagged(num, p)| <= |Tagged(num, q)|
  {
    EncVarintMonotone(|p|, |q|);
  }

  // ---------- messages ----------

  datatype ContentMsg = ContentMsg(key: Option<bytes>, value: Option<bytes>, unrecognized: bytes)

  datatype LogMsg = LogMsg(time: Option<uint32>, contents: seq<ContentMsg>, unrecognized: bytes)

  datatype GroupMsg = GroupMsg(
    logs: seq<LogMsg>,
    reserved: Option<bytes>,
    topic: Option<bytes>,
    source: Option<bytes>,
    unrecognized: bytes)

  datatype ListMsg = ListMsg(groups: seq<GroupMsg>, unrecognized: bytes)

  const EmptyContent := ContentMsg(None, None, [])
  const EmptyLog := LogMsg(None, [], [])
  const EmptyGroup := GroupMsg([], None, None, None, [])
  const EmptyList := ListMsg([], [])

  // ---------- encoding ----------

  // `Enc` is what the writers lay out and the sizers count; a required field that is not set
  // contributes nothing to the size, and the writer stops there (see Missing).

  function EncContent(m: ContentMsg): bytes {
    TaggedOption(1, m.key) + TaggedOption(2, m.value) + m.unrecognized
  }

  function EncAll<M>(num: nat, enc: M -> bytes, ms: seq<M>): bytes
    requires 1 <= num <= 15
  {
    if ms == [] then [] else EncAll(num, enc, ms[..|ms| - 1]) + Tagged(num, enc(ms[|ms| - 1]))
  }

  function EncTime(time: Option<uint32>): bytes {
    match time
    case None => []
    case Some(t) => TaggedVarint(1, t)
  }

  function EncLog(m: LogMsg): bytes {
    EncTime(m.time) + EncAll(2, EncContent, m.contents) + m.unrecognized
  }

  function EncGroup(m: GroupMsg): bytes {
    EncAll(1, EncLog, m.logs)
    + TaggedOption(2, m.reserved) + TaggedOption(3, m.topic) + TaggedOption(4, m.source)
    + m.unrecognized
  }

  function EncList(m: ListMsg): bytes {
    EncAll(1, EncGroup, m.groups) + m.unrecognized
  }

  // The first required field, in writing order, that is not set.

  function FirstMissing<M>(missing: M -> Option<WireError>, ms: seq<M>): Option<WireError> {
    if ms == [] then None
    else
      match FirstMissing(missing, ms[..|ms| - 1])
      case Some(e) => Some(e)
      case None => missing(ms[|ms| - 1])
  }

  function MissingInContent(m: ContentMsg): Option<WireError> {
    if m.key.None? then Some(RequiredNotSet("Key"))
    else if m.value.None? then Some(RequiredNotSet("Value"))
    else None
  }

  function MissingInLog(m: LogMsg): Option<WireError> {
    if m.time.None? then Some(RequiredNotSet("Time")) else FirstMissing(MissingInContent, m.contents)
  }

  function MissingInGroup(m: GroupMsg): Option<WireError> {
    FirstMissing(MissingInLog, m.logs)
  }

  function MissingInList(m: ListMsg): Option<WireError> {
    FirstMissing(MissingInGroup, m.groups)
  }

  // ---------- decoding ----------

  // The bits of `hasFields` are local to one call: they say what this input contained.
  datatype ContentState = ContentState(msg: ContentMsg, hasKey: bool, hasValue: bool)
  datatype LogState = LogState(msg: LogMsg, hasTime: bool)

  function ApplyContent(s: ContentState, f: Field): Result<ContentState, WireError> {
    match f
    case BytesField(num, p) =>
      if num == 1 then Ok(s.(msg := s.msg.(key := Some(p)), hasKey := true))
      else Ok(s.(msg := s.msg.(value := Some(p)), hasValue := true))
    case UnknownField(raw) => Ok(s.(msg := s.msg.(unrecognized := s.msg.unrecognized + raw)))
    case VarintField(_, _) => Ok(s)  // no varint field is declared
  }

  function DecodeContent(m: ContentMsg, d: bytes): Result<ContentMsg, WireError> {
    match Fold(ContentSchema, ApplyContent, ContentState(m, false, false), d)
    case Err(e) => Err(e)
    case Ok(s) =>
      if !s.hasKey then Err(RequiredNotSet("Key"))
      else if !s.hasValue then Err(RequiredNotSet("Value"))
      else Ok(s.msg)
  }

  function ApplyLog(s: LogState, f: Field): Result<LogState, WireError> {
    match f
    case VarintField(_, v) => Ok(LogState(s.msg.(time := Some(v)), true))
    case BytesField(_, p) =>
      (match DecodeContent(EmptyContent, p)
       case Err(e) => Err(e)
       case Ok(c) => Ok(s.(msg := s.msg.(contents := s.msg.contents + [c]))))
    case UnknownField(raw) => Ok(s.(msg := s.msg.(unrecognized := s.msg.unrecognized + raw)))
  }

  function DecodeLog(m: LogMsg, d: bytes): Result<LogMsg, WireError> {
    match Fold(LogSchema, ApplyLog, LogState(m, false), d)
    case Err(e) => Err(e)
    case Ok(s) => if !s.hasTime then Err(RequiredNotSet("Time")) else Ok(s.msg)
  }

  function ApplyGroup(m: GroupMsg, f: Field): Result<GroupMsg, WireError> {
    match f
    case BytesField(num, p) =>
      if num == 1 then
        match DecodeLog(EmptyLog, p)
        case Err(e) => Err(e)
        case Ok(l) => Ok(m.(logs := m.logs + [l]))
      else if num == 2 then Ok(m.(reserved := Some(p)))
      else if num == 3 then Ok(m.(topic := Some(p)))
      else Ok(m.(source := Some(p)))
    case UnknownField(raw) => Ok(m.(unrecognized := m.unrecognized + raw))
    case VarintField(_, _) => Ok(m)  // no varint field is declared
  }

  function DecodeGroup(m: GroupMsg, d: bytes): Result<GroupMsg, WireError> {
    Fold(GroupSchema, ApplyGroup, m, d)
  }

  function ApplyList(m: ListMsg, f: Field): Result<ListMsg, WireError> {
    match f
    case BytesField(_, p) =>
      (match DecodeGroup(EmptyGroup, p)
       case Err(e) => Err(e)
       case Ok(g) => Ok(m.(groups := m.groups + [g])))
    case UnknownField(raw) => Ok(m.(unrecognized := m.unrecognized + raw))
    case VarintField(_, _) => Ok(m)  // no varint field is declared
  }

  function DecodeList(m: ListMsg, d: bytes): Result<ListMsg, WireError> {
    Fold(ListSchema, ApplyList, m, d)
  }
}
