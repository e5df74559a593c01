/**
 What marshalling and unmarshalling the four messages promise together: a round trip through all
 nesting levels, a normal form for everything the decoder accepts, and decoding as a merge.
 */
module LogTheorems {
  import opened Basics
  import opened Wire
  import opened WireGrammar
  import opened LogMessages

  // ---------- messages that survive the wire ----------

  predicate ValidContent(m: ContentMsg) {
    m.key.Some? && m.value.Some? && UnknownOnly(ContentSchema, m.unrecognized)
  }

  predicate ValidLog(m: LogMsg) {
    && m.time.Some?
    && (forall c :: c in m.contents ==> ValidContent(c))
    && UnknownOnly(LogSchema, m.unrecognized)
  }

  predicate ValidGroup(m: GroupMsg) {
    (forall l :: l in m.logs ==> ValidLog(l)) && UnknownOnly(GroupSchema, m.unrecognized)
  }

  predicate ValidList(m: ListMsg) {
    (forall g :: g in m.groups ==> ValidGroup(g)) && UnknownOnly(ListSchema, m.unrecognized)
  }

  predicate ForeignTag(schema: Schema, tag: bytes) {
    var num := FieldNumber(GroupsValue(tag));
    num > 0 && num !in schema
  }

  predicate Foreign(schema: Schema, fs: Nodes) {
    match fs
    case Nil => true
    case Cons(f, rest) =>
      ForeignTag(schema, f.tag) && Foreign(schema, rest)
  }

  lemma ReadTagBytes(tag: bytes, t: bytes)
    requires VarintShape(tag) && GroupsValue(tag) % 8 != 4
    ensures var num := FieldNumber(GroupsValue(tag));
      ReadTag(tag + t) == if num <= 0 then Err(IllegalTag) else Ok(Tag(num, GroupsValue(tag) % 8, |tag|))
  {
    VarintExact(tag, t);
  }

  lemma ScanNode(schema: Schema, f: Node, t: bytes)
    requires WellFormed(f) && ForeignTag(schema, f.tag)
    ensures ScanField(schema, Print(f) + t) == Ok(Scanned(UnknownField(Print(f)), |Print(f)|))
  {
    SkipAcceptsNode(f, t);
    ConcatAssoc(f.tag, PrintBody(f), t);
    ReadTagBytes(f.tag, PrintBody(f) + t);
    DropConcat(Print(f), t);
  }

  lemma {:induction false} ForeignIsUnknown(schema: Schema, fs: Nodes)
    requires AllWellFormed(fs) && Foreign(schema, fs)
    ensures UnknownOnly(schema, PrintAll(fs))
  {
    if fs.Cons? {
      ScanNode(schema, fs.head, PrintAll(fs.tail));
      assert PrintAll(fs)[|Print(fs.head)|..] == PrintAll(fs.tail);
      ForeignIsUnknown(schema, fs.tail);
    }
  }

  lemma {:induction false} UnknownIsForeign(schema: Schema, u: bytes) returns (fs: Nodes)
    requires UnknownOnly(schema, u)
    ensures AllWellFormed(fs) && Foreign(schema, fs) && PrintAll(fs) == u
    decreases |u|
  {
    if u == [] {
      fs := Nil;
    } else {
      var f := UnknownFieldIsNode(schema, u);
      var rest := UnknownIsForeign(schema, u[|Print(f)|..]);
      fs := Cons(f, rest);
      assert u == Print(f) + PrintAll(rest);
    }
  }

  lemma UnknownFieldIsNode(schema: Schema, u: bytes) returns (f: Node)
    requires ScanField(schema, u).Ok? && ScanField(schema, u).value.field.UnknownField?
    ensures WellFormed(f) && ForeignTag(schema, f.tag)
    ensures ScanField(schema, u).value.used == |Print(f)| && u[..|Print(f)|] == Print(f)
  {
    f := SkipYieldsNode(u);
    var rest := u[|Print(f)|..];
    assert u == Print(f) + rest;
    ConcatAssoc(f.tag, PrintBody(f), rest);
    ReadTagBytes(f.tag, PrintBody(f) + rest);
  }

  lemma UnknownExact(schema: Schema, u: bytes)
    ensures UnknownOnly(schema, u)
       <==> exists fs :: AllWellFormed(fs) && Foreign(schema, fs) && PrintAll(fs) == u
  {
    if UnknownOnly(schema, u) {
      var fs := UnknownIsForeign(schema, u);
    }
    forall fs | AllWellFormed(fs) && Foreign(schema, fs) && PrintAll(fs) == u
      ensures UnknownOnly(schema, u)
    {
      ForeignIsUnknown(schema, fs);
    }
  }

  // ---------- round trip ----------

  // `mk(u)` is the state of a loop that has collected the unknown bytes `u`.
  lemma {:induction false} FoldUnknown<S>(schema: Schema, apply: Apply<S>, mk: bytes -> S, v: bytes, u: bytes)
    requires UnknownOnly(schema, u)
    requires forall w, raw :: apply(mk(w), UnknownField(raw)) == Ok(mk(w + raw))
    ensures Fold(schema, apply, mk(v), u) == Ok(mk(v + u))
    decreases |u|
  {
    if u == [] {
      assert v + u == v;
    } else {
      var f := ScanField(schema, u).value;
      var raw, rest := f.field.raw, u[f.used..];
      hide ScanField;
      FoldUnknown(schema, apply, mk, v + raw, rest);
      assert (v + raw) + rest == v + u;
    }
  }

  lemma FoldTagged<S>(schema: Schema, apply: Apply<S>, s: S, num: nat, payload: bytes, t: bytes)
    requires 1 <= num <= 15 && num in schema && schema[num] == 2 && |payload| < TWO_63
    requires apply(s, BytesField(num, payload)).Ok?
    ensures Fold(schema, apply, s, Tagged(num, payload) + t)
         == Fold(schema, apply, apply(s, BytesField(num, payload)).value, t)
  {
    ScanTagged(schema, num, payload, t);
    FoldStep(schema, apply, s, BytesField(num, payload), Tagged(num, payload), t);
  }

  lemma FoldTaggedVarint<S>(schema: Schema, apply: Apply<S>, s: S, num: nat, value: nat, t: bytes)
    requires 1 <= num <= 15 && num in schema && schema[num] == 0 && value < TWO_32
    requires apply(s, VarintField(num, value)).Ok?
    ensures Fold(schema, apply, s, TaggedVarint(num, value) + t)
         == Fold(schema, apply, apply(s, VarintField(num, value)).value, t)
  {
    ScanTaggedVarint(schema, num, value, t);
    FoldStep(schema, apply, s, VarintField(num, value), TaggedVarint(num, value), t);
  }

  // `mk(xs)` is the state of a loop that has collected the submessages `xs`.
  lemma {:induction false} FoldAll<S, M>(
    schema: Schema, apply: Apply<S>, num: nat, enc: M -> bytes, mk: seq<M> -> S, ms: seq<M>, t: bytes)
    requires 1 <= num <= 15 && num in schema && schema[num] == 2 && |EncAll(num, enc, ms)| < TWO_63
    requires forall k :: 0 <= k < |ms| ==>
      apply(mk(ms[..k]), BytesField(num, enc(ms[k]))) == Ok(mk(ms[..k] + [ms[k]]))
    ensures Fold(schema, apply, mk([]), EncAll(num, enc, ms) + t) == Fold(schema, apply, mk(ms), t)
    decreases |ms|
  {
    if ms == [] {
      assert EncAll(num, enc, ms) + t == t;
    } else {
      var init, m := ms[..|ms| - 1], ms[|ms| - 1];
      ConcatAssoc(EncAll(num, enc, init), Tagged(num, enc(m)), t);
      assert forall k :: 0 <= k < |init| ==> init[..k] == ms[..k] && init[k] == ms[k];
      FoldAll(schema, apply, num, enc, mk, init, Tagged(num, enc(m)) + t);
      assert init + [m] == ms;
      FoldTagged(schema, apply, mk(init), num, enc(m), t);
    }
  }

  lemma {:induction false} EncAllBounds<M>(num: nat, enc: M -> bytes, ms: seq<M>, k: nat)
    requires 1 <= num <= 15 && k < |ms|
    ensures |enc(ms[k])| < |EncAll(num, enc, ms)|
    decreases |ms|
  {
    if k < |ms| - 1 {
      EncAllBounds(num, enc, ms[..|ms| - 1], k);
    }
  }

  lemma RoundTripContent(m: ContentMsg)
    requires ValidContent(m) && |EncContent(m)| < TWO_63
    ensures DecodeContent(EmptyContent, EncContent(m)) == Ok(m)
  {
    var s0 := ContentState(EmptyContent, false, false);
    var s1 := ContentState(ContentMsg(m.key, None, []), true, false);
    var t2 := m.unrecognized;
    var t1 := Tagged(2, m.value.value) + t2;
    assert EncContent(m) == Tagged(1, m.key.value) + t1;
    FoldTagged(ContentSchema, ApplyContent, s0, 1, m.key.value, t1);
    FoldTagged(ContentSchema, ApplyContent, s1, 2, m.value.value, t2);
    FoldUnknown(ContentSchema, ApplyContent,
                (u: bytes) => ContentState(ContentMsg(m.key, m.value, u), true, true), [], t2);
    assert [] + t2 == t2;
  }

  lemma LogTimeFold(s: LogState, time: uint32, t: bytes)
    ensures Fold(LogSchema, ApplyLog, s, TaggedVarint(1, time) + t)
         == Fold(LogSchema, ApplyLog, LogState(s.msg.(time := Some(time)), true), t)
  {
    var s' := LogState(s.msg.(time := Some(time)), true);
    assert ApplyLog(s, VarintField(1, time)) == Ok(s');
    FoldTaggedVarint(LogSchema, ApplyLog, s, 1, time, t);
  }

  lemma RoundTripLog(m: LogMsg)
    requires ValidLog(m) && |EncLog(m)| < TWO_63
    ensures DecodeLog(EmptyLog, EncLog(m)) == Ok(m)
  {
    ConcatAssoc(TaggedVarint(1, m.time.value), EncAll(2, EncContent, m.contents), m.unrecognized);
    LogTimeFold(LogState(EmptyLog, false), m.time.value, EncAll(2, EncContent, m.contents) + m.unrecognized);
    LogContentsFold(m, m.unrecognized);
    LogUnknownFold(m);
  }

  lemma LogUnknownFold(m: LogMsg)
    requires ValidLog(m)
    ensures Fold(LogSchema, ApplyLog, LogState(LogMsg(m.time, m.contents, []), true), m.unrecognized)
         == Ok(LogState(m, true))
  {
    var mk := (u: bytes) => LogState(LogMsg(m.time, m.contents, u), true);
    FoldUnknown(LogSchema, ApplyLog, mk, [], m.unrecognized);
    assert [] + m.unrecognized == m.unrecognized;
  }

  lemma LogContentsFold(m: LogMsg, t: bytes)
    requires ValidLog(m) && |EncLog(m)| < TWO_63
    ensures Fold(LogSchema, ApplyLog, LogState(LogMsg(m.time, [], []), true), EncAll(2, EncContent, m.contents) + t)
         == Fold(LogSchema, ApplyLog, LogState(LogMsg(m.time, m.contents, []), true), t)
  {
    forall k | 0 <= k < |m.contents|
      ensures DecodeContent(EmptyContent, EncContent(m.contents[k])) == Ok(m.contents[k])
    {
      EncAllBounds(2, EncContent, m.contents, k);
      RoundTripContent(m.contents[k]);
    }
    var mk := (cs: seq<ContentMsg>) => LogState(LogMsg(m.time, cs, []), true);
    FoldAll(LogSchema, ApplyLog, 2, EncContent, mk, m.contents, t);
  }

  lemma GroupLogsFold(m: GroupMsg, t: bytes)
    requires ValidGroup(m) && |EncGroup(m)| < TWO_63
    ensures Fold(GroupSchema, ApplyGroup, EmptyGroup, EncAll(1, EncLog, m.logs) + t)
         == Fold(GroupSchema, ApplyGroup, GroupMsg(m.logs, None, None, None, []), t)
  {
    forall k | 0 <= k < |m.logs|
      ensures DecodeLog(EmptyLog, EncLog(m.logs[k])) == Ok(m.logs[k])
    {
      EncAllBounds(1, EncLog, m.logs, k);
      RoundTripLog(m.logs[k]);
    }
    var mk := (ls: seq<LogMsg>) => GroupMsg(ls, None, None, None, []);
    FoldAll(GroupSchema, ApplyGroup, 1, EncLog, mk, m.logs, t);
  }

  lemma GroupUnknownFold(m: GroupMsg)
    requires ValidGroup(m)
    ensures Fold(GroupSchema, ApplyGroup, m.(unrecognized := []), m.unrecognized) == Ok(m)
  {
    var mk := (u: bytes) => m.(unrecognized := u);
    FoldUnknown(GroupSchema, ApplyGroup, mk, [], m.unrecognized);
    assert [] + m.unrecognized == m.unrecognized;
  }

  function WithOption(m: GroupMsg, num: nat, o: Option<bytes>): GroupMsg
    requires 2 <= num <= 4
  {
    if num == 2 then m.(reserved := o) else if num == 3 then m.(topic := o) else m.(source := o)
  }

  lemma GroupOptionFold(m: GroupMsg, num: nat, o: Option<bytes>, t: bytes)
    requires 2 <= num <= 4
    requires o.Some? ==> |o.value| < TWO_63
    requires WithOption(m, num, None) == m
    ensures Fold(GroupSchema, ApplyGroup, m, TaggedOption(num, o) + t)
         == Fold(GroupSchema, ApplyGroup, WithOption(m, num, o), t)
  {
    match o
    case None =>
      assert TaggedOption(num, o) + t == t;
    case Some(p) =>
      FoldTagged(GroupSchema, ApplyGroup, m, num, p, t);
  }

  lemma GroupLayout(a: bytes, b: bytes, c: bytes, d: bytes, e: bytes)
    ensures a + b + c + d + e == a + (b + (c + (d + e)))
  {
  }

  lemma RoundTripGroup(m: GroupMsg)
    requires ValidGroup(m) && |EncGroup(m)| < TWO_63
    ensures DecodeGroup(EmptyGroup, EncGroup(m)) == Ok(m)
  {
    var logs, t4 := EncAll(1, EncLog, m.logs), m.unrecognized;
    var o2, o3, o4 := TaggedOption(2, m.reserved), TaggedOption(3, m.topic), TaggedOption(4, m.source);
    GroupLayout(logs, o2, o3, o4, t4);
    GroupLogsFold(m, o2 + (o3 + (o4 + t4)));
    GroupOptionFold(GroupMsg(m.logs, None, None, None, []), 2, m.reserved, o3 + (o4 + t4));
    GroupOptionFold(GroupMsg(m.logs, m.reserved, None, None, []), 3, m.topic, o4 + t4);
    GroupOptionFold(GroupMsg(m.logs, m.reserved, m.topic, None, []), 4, m.source, t4);
    GroupUnknownFold(m);
  }

  lemma ListGroupsFold(m: ListMsg, t: bytes)
    requires ValidList(m) && |EncList(m)| < TWO_63
    ensures Fold(ListSchema, ApplyList, EmptyList, EncAll(1, EncGroup, m.groups) + t)
         == Fold(ListSchema, ApplyList, ListMsg(m.groups, []), t)
  {
    forall k | 0 <= k < |m.groups|
      ensures DecodeGroup(EmptyGroup, EncGroup(m.groups[k])) == Ok(m.groups[k])
    {
      EncAllBounds(1, EncGroup, m.groups, k);
      RoundTripGroup(m.groups[k]);
    }
    var mk := (gs: seq<GroupMsg>) => ListMsg(gs, []);
    FoldAll(ListSchema, ApplyList, 1, EncGroup, mk, m.groups, t);
  }

  lemma ListUnknownFold(m: ListMsg)
    requires ValidList(m)
    ensures Fold(ListSchema, ApplyList, ListMsg(m.groups, []), m.unrecognized) == Ok(m)
  {
    var mk := (u: bytes) => ListMsg(m.groups, u);
    FoldUnknown(ListSchema, ApplyList, mk, [], m.unrecognized);
    assert [] + m.unrecognized == m.unrecognized;
  }

  /** The round trip through all four nesting levels. */
  lemma RoundTripList(m: ListMsg)
    requires ValidList(m) && |EncList(m)| < TWO_63
    ensures DecodeList(EmptyList, EncList(m)) == Ok(m)
  {
    ListGroupsFold(m, m.unrecognized);
    ListUnknownFold(m);
  }

  // ---------- normal form ----------

  lemma EncAllSnoc<M>(num: nat, enc: M -> bytes, ms: seq<M>, m: M)
    requires 1 <= num <= 15
    ensures EncAll(num, enc, ms + [m]) == EncAll(num, enc, ms) + Tagged(num, enc(m))
  {
    assert (ms + [m])[..|ms|] == ms;
  }

  predicate ContentStateOk(s: ContentState) {
    && (s.hasKey ==> s.msg.key.Some?) && (s.hasValue ==> s.msg.value.Some?)
    && UnknownOnly(ContentSchema, s.msg.unrecognized)
  }

  lemma ContentStepKeeps(s: ContentState, f: Field, used: nat)
    requires ContentStateOk(s) && Fits(ContentSchema, f, used)
    ensures var s' := ApplyContent(s, f).value;
      ContentStateOk(s') && |EncContent(s'.msg)| <= |EncContent(s.msg)| + used
  {
    if f.UnknownField? {
      UnknownConcat(ContentSchema, s.msg.unrecognized, f.raw);
    }
  }

  lemma {:induction false} ContentFoldKeeps(s: ContentState, d: bytes)
    requires ContentStateOk(s) && Fold(ContentSchema, ApplyContent, s, d).Ok?
    ensures var s' := Fold(ContentSchema, ApplyContent, s, d).value;
      ContentStateOk(s') && |EncContent(s'.msg)| <= |EncContent(s.msg)| + |d|
    decreases |d|
  {
    if d != [] {
      var f := ScanField(ContentSchema, d).value;
      ScannedFits(ContentSchema, d);
      ContentStepKeeps(s, f.field, f.used);
      ContentFoldKeeps(ApplyContent(s, f.field).value, d[f.used..]);
    }
  }

  /** What one call decodes into a fresh message is valid, and re-encodes to no more bytes than it read. */
  lemma DecodedContentIsValid(d: bytes)
    requires DecodeContent(EmptyContent, d).Ok?
    ensures var m := DecodeContent(EmptyContent, d).value; ValidContent(m) && |EncContent(m)| <= |d|
  {
    ContentFoldKeeps(ContentState(EmptyContent, false, false), d);
  }

  predicate LogStateOk(s: LogState) {
    && (s.hasTime ==> s.msg.time.Some?)
    && (forall c :: c in s.msg.contents ==> ValidContent(c))
    && UnknownOnly(LogSchema, s.msg.unrecognized)
  }

  lemma LogStepKeeps(s: LogState, f: Field, used: nat)
    requires LogStateOk(s) && Fits(LogSchema, f, used) && ApplyLog(s, f).Ok?
    ensures var s' := ApplyLog(s, f).value;
      LogStateOk(s') && |EncLog(s'.msg)| <= |EncLog(s.msg)| + used
  {
    match f
    case VarintField(_, _) =>
    case BytesField(_, p) =>
      var c := DecodeContent(EmptyContent, p).value;
      DecodedContentIsValid(p);
      TaggedMonotone(2, EncContent(c), p);
      EncAllSnoc(2, EncContent, s.msg.contents, c);
    case UnknownField(raw) =>
      UnknownConcat(LogSchema, s.msg.unrecognized, raw);
  }

  lemma {:induction false} LogFoldKeeps(s: LogState, d: bytes)
    requires LogStateOk(s) && Fold(LogSchema, ApplyLog, s, d).Ok?
    ensures var s' := Fold(LogSchema, ApplyLog, s, d).value;
      LogStateOk(s') && |EncLog(s'.msg)| <= |EncLog(s.msg)| + |d|
    decreases |d|
  {
    if d != [] {
      var f := ScanField(LogSchema, d).value;
      ScannedFits(LogSchema, d);
      LogStepKeeps(s, f.field, f.used);
      LogFoldKeeps(ApplyLog(s, f.field).value, d[f.used..]);
    }
  }

  lemma DecodedLogIsValid(d: bytes)
    requires DecodeLog(EmptyLog, d).Ok?
    ensures var m := DecodeLog(EmptyLog, d).value; ValidLog(m) && |EncLog(m)| <= |d|
  {
    LogFoldKeeps(LogState(EmptyLog, false), d);
  }

  lemma GroupStepKeeps(m: GroupMsg, f: Field, used: nat)
    requires ValidGroup(m) && Fits(GroupSchema, f, used) && ApplyGroup(m, f).Ok?
    ensures var m' := ApplyGroup(m, f).value;
      ValidGroup(m') && |EncGroup(m')| <= |EncGroup(m)| + used
  {
    match f
    case BytesField(num, p) =>
      if num == 1 {
        GroupLogKeeps(m, p, used);
      }
    case UnknownField(raw) =>
      UnknownConcat(GroupSchema, m.unrecognized, raw);
    case VarintField(_, _) =>
  }

  lemma GroupLogKeeps(m: GroupMsg, p: bytes, used: nat)
    requires ValidGroup(m) && |Tagged(1, p)| <= used && DecodeLog(EmptyLog, p).Ok?
    ensures var m' := m.(logs := m.logs + [DecodeLog(EmptyLog, p).value]);
      ValidGroup(m') && |EncGroup(m')| <= |EncGroup(m)| + used
  {
    var l := DecodeLog(EmptyLog, p).value;
    DecodedLogIsValid(p);
    TaggedMonotone(1, EncLog(l), p);
    EncAllSnoc(1, EncLog, m.logs, l);
    hide DecodeLog, EncLog, EncAll, Tagged, ValidLog;
  }

  lemma {:induction false} GroupFoldKeeps(m: GroupMsg, d: bytes)
    requires ValidGroup(m) && Fold(GroupSchema, ApplyGroup, m, d).Ok?
    ensures var m' := Fold(GroupSchema, ApplyGroup, m, d).value;
      ValidGroup(m') && |EncGroup(m')| <= |EncGroup(m)| + |d|
    decreases |d|
  {
    if d != [] {
      var f := ScanField(GroupSchema, d).value;
      ScannedFits(GroupSchema, d);
      GroupStepKeeps(m, f.field, f.used);
      GroupFoldKeeps(ApplyGroup(m, f.field).value, d[f.used..]);
    }
  }

  lemma DecodedGroupIsValid(d: bytes)
    requires DecodeGroup(EmptyGroup, d).Ok?
    ensures var m := DecodeGroup(EmptyGroup, d).value; ValidGroup(m) && |EncGroup(m)| <= |d|
  {
    GroupFoldKeeps(EmptyGroup, d);
  }

  lemma ListStepKeeps(m: ListMsg, f: Field, used: nat)
    requires ValidList(m) && Fits(ListSchema, f, used) && ApplyList(m, f).Ok?
    ensures var m' := ApplyList(m, f).value;
      ValidList(m') && |EncList(m')| <= |EncList(m)| + used
  {
    match f
    case BytesField(_, p) =>
      var g := DecodeGroup(EmptyGroup, p).value;
      DecodedGroupIsValid(p);
      TaggedMonotone(1, EncGroup(g), p);
      EncAllSnoc(1, EncGroup, m.groups, g);
    case UnknownField(raw) =>
      UnknownConcat(ListSchema, m.unrecognized, raw);
    case VarintField(_, _) =>
  }

  lemma {:induction false} ListFoldKeeps(m: ListMsg, d: bytes)
    requires ValidList(m) && Fold(ListSchema, ApplyList, m, d).Ok?
    ensures var m' := Fold(ListSchema, ApplyList, m, d).value;
      ValidList(m') && |EncList(m')| <= |EncList(m)| + |d|
    decreases |d|
  {
    if d != [] {
      var f := ScanField(ListSchema, d).value;
      ScannedFits(ListSchema, d);
      ListStepKeeps(m, f.field, f.used);
      ListFoldKeeps(ApplyList(m, f.field).value, d[f.used..]);
    }
  }

  // Valid messages have every required field, so `Marshal` accepts them.

  lemma {:induction false} NoneMissing<M>(missing: M -> Option<WireError>, ms: seq<M>)
    requires forall m :: m in ms ==> missing(m) == None
    ensures FirstMissing(missing, ms) == None
  {
    if ms != [] {
      assert ms[|ms| - 1] in ms;
      NoneMissing(missing, ms[..|ms| - 1]);
    }
  }

  lemma ValidLogComplete(m: LogMsg)
    requires ValidLog(m)
    ensures MissingInLog(m) == None
  {
    NoneMissing(MissingInContent, m.contents);
  }

  lemma ValidGroupComplete(m: GroupMsg)
    requires ValidGroup(m)
    ensures MissingInGroup(m) == None
  {
    forall l | l in m.logs ensures MissingInLog(l) == None { ValidLogComplete(l); }
    NoneMissing(MissingInLog, m.logs);
  }

  lemma ValidListComplete(m: ListMsg)
    requires ValidList(m)
    ensures MissingInList(m) == None
  {
    forall g | g in m.groups ensures MissingInGroup(g) == None { ValidGroupComplete(g); }
    NoneMissing(MissingInGroup, m.groups);
  }

  /** `Marshal` of each message as a value: the first missing required field, or the encoding. */
  function Marshalled(missing: Option<WireError>, e: bytes): Result<bytes, WireError> {
    match missing
    case Some(err) => Err(err)
    case None => Ok(e)
  }

  function MarshalContent(m: ContentMsg): Result<bytes, WireError> {
    Marshalled(MissingInContent(m), EncContent(m))
  }

  function MarshalLog(m: LogMsg): Result<bytes, WireError> {
    Marshalled(MissingInLog(m), EncLog(m))
  }

  function MarshalGroup(m: GroupMsg): Result<bytes, WireError> {
    Marshalled(MissingInGroup(m), EncGroup(m))
  }

  function MarshalList(m: ListMsg): Result<bytes, WireError> {
    Marshalled(MissingInList(m), EncList(m))
  }

  lemma NormalFormContent(d: bytes)
    requires |d| < TWO_63 && DecodeContent(EmptyContent, d).Ok?
    ensures var m := DecodeContent(EmptyContent, d).value;
      && MarshalContent(m).Ok? && |MarshalContent(m).value| <= |d|
      && DecodeContent(EmptyContent, MarshalContent(m).value) == Ok(m)
  {
    DecodedContentIsValid(d);
    RoundTripContent(DecodeContent(EmptyContent, d).value);
  }

  lemma NormalFormLog(d: bytes)
    requires |d| < TWO_63 && DecodeLog(EmptyLog, d).Ok?
    ensures var m := DecodeLog(EmptyLog, d).value;
      && MarshalLog(m).Ok? && |MarshalLog(m).value| <= |d|
      && DecodeLog(EmptyLog, MarshalLog(m).value) == Ok(m)
  {
    DecodedLogIsValid(d);
    var m := DecodeLog(EmptyLog, d).value;
    ValidLogComplete(m);
    RoundTripLog(m);
  }

  lemma NormalFormGroup(d: bytes)
    requires |d| < TWO_63 && DecodeGroup(EmptyGroup, d).Ok?
    ensures var m := DecodeGroup(EmptyGroup, d).value;
      && MarshalGroup(m).Ok? && |MarshalGroup(m).value| <= |d|
      && DecodeGroup(EmptyGroup, MarshalGroup(m).value) == Ok(m)
  {
    DecodedGroupIsValid(d);
    var m := DecodeGroup(EmptyGroup, d).value;
    ValidGroupComplete(m);
    RoundTripGroup(m);
  }

  /** Everything the decoder accepts has a normal form: it re-encodes, and decodes to itself. */
  lemma NormalFormList(d: bytes)
    requires |d| < TWO_63 && DecodeList(EmptyList, d).Ok?
    ensures var m := DecodeList(EmptyList, d).value;
      && MarshalList(m).Ok? && |MarshalList(m).value| <= |d|
      && DecodeList(EmptyList, MarshalList(m).value) == Ok(m)
  {
    ListFoldKeeps(EmptyList, d);
    var m := DecodeList(EmptyList, d).value;
    ValidListComplete(m);
    RoundTripList(m);
  }

  /** The exact condition for a message to survive the wire. */
  lemma RoundTripExact(m: ListMsg)
    requires |EncList(m)| < TWO_63
    ensures ValidList(m)
       <==> MarshalList(m).Ok? && DecodeList(EmptyList, MarshalList(m).value) == Ok(m)
  {
    if ValidList(m) {
      ValidListComplete(m);
      RoundTripList(m);
    }
    if MarshalList(m).Ok? && DecodeList(EmptyList, MarshalList(m).value) == Ok(m) {
      ListFoldKeeps(EmptyList, EncList(m));
    }
  }

  // ---------- decoding is a merge ----------

  /**
   After an accepted input, more input gives the same result, or the same error, whether it is
   appended to the first or unmarshalled into the same receiver by a second call.
   */
  lemma MergeGroup(m: GroupMsg, a: bytes, b: bytes)
    requires DecodeGroup(m, a).Ok?
    ensures DecodeGroup(m, a + b) == DecodeGroup(DecodeGroup(m, a).value, b)
  {
    FoldConcat(GroupSchema, ApplyGroup, m, a, b);
  }

  lemma MergeList(m: ListMsg, a: bytes, b: bytes)
    requires DecodeList(m, a).Ok?
    ensures DecodeList(m, a + b) == DecodeList(DecodeList(m, a).value, b)
  {
    FoldConcat(ListSchema, ApplyList, m, a, b);
  }

  function LastOne(a: Option<bytes>, b: Option<bytes>): Option<bytes> {
    if b.Some? then b else a
  }

  // Merging two messages: repeated fields append, optional fields take the last value that is set,
  // unknown fields are kept in order.

  function JoinGroups(a: GroupMsg, b: GroupMsg): GroupMsg {
    GroupMsg(a.logs + b.logs, LastOne(a.reserved, b.reserved), LastOne(a.topic, b.topic),
             LastOne(a.source, b.source), a.unrecognized + b.unrecognized)
  }

  function JoinLists(a: ListMsg, b: ListMsg): ListMsg {
    ListMsg(a.groups + b.groups, a.unrecognized + b.unrecognized)
  }

  function JoinContents(a: ContentMsg, b: ContentMsg): ContentMsg {
    ContentMsg(LastOne(a.key, b.key), LastOne(a.value, b.value), a.unrecognized + b.unrecognized)
  }

  function JoinLogs(a: LogMsg, b: LogMsg): LogMsg {
    LogMsg(if b.time.Some? then b.time else a.time, a.contents + b.contents, a.unrecognized + b.unrecognized)
  }

  function Mapped<S>(h: S -> S, r: Result<S, WireError>): Result<S, WireError> {
    match r
    case Err(e) => Err(e)
    case Ok(s) => Ok(h(s))
  }

  // A change of the receiver that commutes with every field commutes with the whole loop.
  lemma {:induction false} FoldCommutes<S>(schema: Schema, apply: Apply<S>, h: S -> S, s: S, d: bytes)
    requires forall x, f :: apply(h(x), f) == Mapped(h, apply(x, f))
    ensures Fold(schema, apply, h(s), d) == Mapped(h, Fold(schema, apply, s, d))
    decreases |d|
  {
    if d != [] && ScanField(schema, d).Ok? {
      var f := ScanField(schema, d).value;
      assert apply(h(s), f.field) == Mapped(h, apply(s, f.field));
      if apply(s, f.field).Ok? {
        FoldCommutes(schema, apply, h, apply(s, f.field).value, d[f.used..]);
      }
    }
  }

  /** Unmarshalling into a receiver merges what a fresh message would have got. */
  lemma DecodeGroupJoins(m: GroupMsg, d: bytes)
    ensures DecodeGroup(m, d) == Mapped(x => JoinGroups(m, x), DecodeGroup(EmptyGroup, d))
  {
    var h := (x: GroupMsg) => JoinGroups(m, x);
    forall x: GroupMsg, f: Field
      ensures ApplyGroup(h(x), f) == Mapped(h, ApplyGroup(x, f))
    {
      GroupApplyJoins(m, x, f);
    }
    FoldCommutes(GroupSchema, ApplyGroup, h, EmptyGroup, d);
    assert h(EmptyGroup) == m;
  }

  lemma GroupApplyJoins(m: GroupMsg, x: GroupMsg, f: Field)
    ensures ApplyGroup(JoinGroups(m, x), f) == Mapped(y => JoinGroups(m, y), ApplyGroup(x, f))
  {
    hide Fold;
    match f
    case BytesField(num, p) =>
      if num == 1 && DecodeLog(EmptyLog, p).Ok? {
        ConcatAssoc(m.logs, x.logs, [DecodeLog(EmptyLog, p).value]);
      }
    case UnknownField(raw) =>
      ConcatAssoc(m.unrecognized, x.unrecognized, raw);
    case VarintField(_, _) =>
  }

  lemma DecodeListJoins(m: ListMsg, d: bytes)
    ensures DecodeList(m, d) == Mapped(x => JoinLists(m, x), DecodeList(EmptyList, d))
  {
    var h := (x: ListMsg) => JoinLists(m, x);
    forall x: ListMsg, f: Field
      ensures ApplyList(h(x), f) == Mapped(h, ApplyList(x, f))
    {
      ListApplyJoins(m, x, f);
    }
    FoldCommutes(ListSchema, ApplyList, h, EmptyList, d);
    assert h(EmptyList) == m;
  }

  lemma ListApplyJoins(m: ListMsg, x: ListMsg, f: Field)
    ensures ApplyList(JoinLists(m, x), f) == Mapped(y => JoinLists(m, y), ApplyList(x, f))
  {
    hide Fold;
    match f
    case BytesField(_, p) =>
      if DecodeGroup(EmptyGroup, p).Ok? {
        ConcatAssoc(m.groups, x.groups, [DecodeGroup(EmptyGroup, p).value]);
      }
    case UnknownField(raw) =>
      ConcatAssoc(m.unrecognized, x.unrecognized, raw);
    case VarintField(_, _) =>
  }

  // The bits of `hasFields` only record what the input contained, so for Log and LogContent the same
  // holds of the loop's state, with the bits of the receiver's history put aside.

  lemma DecodeLogJoins(m: LogMsg, had: bool, d: bytes)
    ensures Fold(LogSchema, ApplyLog, LogState(m, had), d)
         == Mapped((s: LogState) => LogState(JoinLogs(m, s.msg), had || s.hasTime),
                   Fold(LogSchema, ApplyLog, LogState(EmptyLog, false), d))
  {
    var h := (s: LogState) => LogState(JoinLogs(m, s.msg), had || s.hasTime);
    forall s: LogState, f: Field
      ensures ApplyLog(h(s), f) == Mapped(h, ApplyLog(s, f))
    {
      LogApplyJoins(m, had, s, f);
    }
    FoldCommutes(LogSchema, ApplyLog, h, LogState(EmptyLog, false), d);
    assert h(LogState(EmptyLog, false)) == LogState(m, had);
  }

  lemma LogApplyJoins(m: LogMsg, had: bool, s: LogState, f: Field)
    ensures ApplyLog(LogState(JoinLogs(m, s.msg), had || s.hasTime), f)
         == Mapped((t: LogState) => LogState(JoinLogs(m, t.msg), had || t.hasTime), ApplyLog(s, f))
  {
    hide Fold;
    match f
    case BytesField(_, p) =>
      if DecodeContent(EmptyContent, p).Ok? {
        ConcatAssoc(m.contents, s.msg.contents, [DecodeContent(EmptyContent, p).value]);
      }
    case UnknownField(raw) =>
      ConcatAssoc(m.unrecognized, s.msg.unrecognized, raw);
    case VarintField(_, _) =>
  }

  lemma DecodeContentJoins(m: ContentMsg, hadKey: bool, hadValue: bool, d: bytes)
    ensures Fold(ContentSchema, ApplyContent, ContentState(m, hadKey, hadValue), d)
         == Mapped((s: ContentState) => ContentState(JoinContents(m, s.msg), hadKey || s.hasKey, hadValue || s.hasValue),
                   Fold(ContentSchema, ApplyContent, ContentState(EmptyContent, false, false), d))
  {
    var h := (s: ContentState) => ContentState(JoinContents(m, s.msg), hadKey || s.hasKey, hadValue || s.hasValue);
    forall s: ContentState, f: Field
      ensures ApplyContent(h(s), f) == Mapped(h, ApplyContent(s, f))
    {
      if f.UnknownField? {
        ConcatAssoc(m.unrecognized, s.msg.unrecognized, f.raw);
      }
    }
    FoldCommutes(ContentSchema, ApplyContent, h, ContentState(EmptyContent, false, false), d);
    assert h(ContentState(EmptyContent, false, false)) == ContentState(m, hadKey, hadValue);
  }

  /** Concatenating two accepted inputs of a group merges the two messages they decode to. */
  lemma ConcatIsMergeGroup(a: bytes, b: bytes)
    requires DecodeGroup(EmptyGroup, a).Ok? && DecodeGroup(EmptyGroup, b).Ok?
    ensures DecodeGroup(EmptyGroup, a + b)
         == Ok(JoinGroups(DecodeGroup(EmptyGroup, a).value, DecodeGroup(EmptyGroup, b).value))
  {
    MergeGroup(EmptyGroup, a, b);
    DecodeGroupJoins(DecodeGroup(EmptyGroup, a).value, b);
  }

  lemma ConcatIsMergeList(a: bytes, b: bytes)
    requires DecodeList(EmptyList, a).Ok? && DecodeList(EmptyList, b).Ok?
    ensures DecodeList(EmptyList, a + b)
         == Ok(JoinLists(DecodeList(EmptyList, a).value, DecodeList(EmptyList, b).value))
  {
    MergeList(EmptyList, a, b);
    DecodeListJoins(DecodeList(EmptyList, a).value, b);
  }

  /** The same for a log, whose required time only one call over both inputs need find. */
  lemma ConcatIsMergeLog(a: bytes, b: bytes)
    requires DecodeLog(EmptyLog, a).Ok? && DecodeLog(EmptyLog, b).Ok?
    ensures DecodeLog(EmptyLog, a + b) == Ok(JoinLogs(DecodeLog(EmptyLog, a).value, DecodeLog(EmptyLog, b).value))
  {
    hide Fold;
    FoldConcat(LogSchema, ApplyLog, LogState(EmptyLog, false), a, b);
    DecodeLogJoins(DecodeLog(EmptyLog, a).value, true, b);
  }

  lemma ConcatIsMergeContent(a: bytes, b: bytes)
    requires DecodeContent(EmptyContent, a).Ok? && DecodeContent(EmptyContent, b).Ok?
    ensures DecodeContent(EmptyContent, a + b)
         == Ok(JoinContents(DecodeContent(EmptyContent, a).value, DecodeContent(EmptyContent, b).value))
  {
    hide Fold;
    FoldConcat(ContentSchema, ApplyContent, ContentState(EmptyContent, false, false), a, b);
    DecodeContentJoins(DecodeContent(EmptyContent, a).value, true, true, b);
  }
}
