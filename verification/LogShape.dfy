/**
 The four messages of `internal/logs/alils/log.pb.go` with every byte and every condition written out: what
 `Marshal` lays down, when it fails, and what `Unmarshal` makes of tags, lengths and wire types.
 */
module LogShape {
  import opened Basics
  import opened Wire
  import opened LogMessages

  // ---------- bytes ----------

  /** A varint has the low seven bits first, with the high bit of a byte set while more follow. */
  lemma VarintBytes(v: nat)
    ensures v < 128 ==> EncVarint(v) == [v]
    ensures 128 <= v < 16384 ==> EncVarint(v) == [128 + v % 128, v / 128]
  {
    if 128 <= v < 16384 {
      assert EncVarint(v / 128) == [v / 128];
    }
  }

  lemma SmallTagged(num: nat, p: bytes)
    requires 1 <= num <= 15 && |p| < 128
    ensures Tagged(num, p) == [8 * num + 2, |p|] + p
  {
    assert [8 * num + 2] + [|p|] == [8 * num + 2, |p|];
  }

  /** Key is field 1 and Value field 2 of a content, both length-delimited. */
  lemma ContentBytes(key: bytes, value: bytes, unknown: bytes)
    requires |key| < 128 && |value| < 128
    ensures EncContent(ContentMsg(Some(key), Some(value), unknown)) == [0x0a, |key|] + key + ([0x12, |value|] + value) + unknown
  {
    SmallTagged(1, key);
    SmallTagged(2, value);
    hide Tagged, EncVarint;
  }

  /** Time is field 1 of a log, a varint, and its contents are field 2, one after the other. */
  lemma LogBytes(time: uint32, c: ContentMsg, d: ContentMsg, unknown: bytes)
    requires time < 128 && |EncContent(c)| < 128 && |EncContent(d)| < 128
    ensures EncLog(LogMsg(Some(time), [c, d], unknown))
         == [0x08, time] + ([0x12, |EncContent(c)|] + EncContent(c) + ([0x12, |EncContent(d)|] + EncContent(d))) + unknown
  {
    SmallTagged(2, EncContent(c));
    SmallTagged(2, EncContent(d));
    assert [0x08] + [time] == [0x08, time];
    hide Tagged, EncContent;
    TwoOf(2, EncContent, c, d);
  }

  lemma TwoOf<M>(num: nat, enc: M -> bytes, a: M, b: M)
    requires 1 <= num <= 15
    ensures EncAll(num, enc, [a]) == Tagged(num, enc(a))
    ensures EncAll(num, enc, [a, b]) == Tagged(num, enc(a)) + Tagged(num, enc(b))
  {
    hide Tagged;
    assert [a, b][..1] == [a] && [a][..0] == [];
    assert EncAll(num, enc, [a]) == [] + Tagged(num, enc(a));
  }

  /** Of a group the logs are field 1, then Reserved, Topic and Source are fields 2, 3 and 4. */
  lemma GroupBytes(l: LogMsg, reserved: bytes, topic: bytes, source: bytes, unknown: bytes)
    requires |EncLog(l)| < 128 && |reserved| < 128 && |topic| < 128 && |source| < 128
    ensures EncGroup(GroupMsg([l], Some(reserved), Some(topic), Some(source), unknown))
         == [0x0a, |EncLog(l)|] + EncLog(l) + ([0x12, |reserved|] + reserved) + ([0x1a, |topic|] + topic)
            + ([0x22, |source|] + source) + unknown
  {
    SmallTagged(1, EncLog(l));
    SmallTagged(2, reserved);
    SmallTagged(3, topic);
    SmallTagged(4, source);
    hide Tagged, EncLog;
    TwoOf(1, EncLog, l, l);
  }

  /** A list has its groups in field 1. */
  lemma ListBytes(g: GroupMsg, unknown: bytes)
    requires |EncGroup(g)| < 128
    ensures EncList(ListMsg([g], unknown)) == [0x0a, |EncGroup(g)|] + EncGroup(g) + unknown
  {
    SmallTagged(1, EncGroup(g));
    hide Tagged, EncGroup;
    TwoOf(1, EncGroup, g, g);
  }

  // ---------- required fields ----------

  lemma {:induction false} FirstMissingExact<M>(missing: M -> Option<WireError>, ms: seq<M>)
    ensures FirstMissing(missing, ms) == None <==> forall k :: 0 <= k < |ms| ==> missing(ms[k]) == None
    ensures forall k :: 0 <= k < |ms| && missing(ms[k]).Some? && (forall j :: 0 <= j < k ==> missing(ms[j]) == None) ==>
      FirstMissing(missing, ms) == missing(ms[k])
  {
    if ms != [] {
      var n := |ms| - 1;
      FirstMissingExact(missing, ms[..n]);
      assert forall k :: 0 <= k < n ==> ms[..n][k] == ms[k];
    }
  }

  /** A content is written exactly when both fields are set; the first that is not is the error. */
  lemma ContentFails(m: ContentMsg)
    ensures MissingInContent(m) == None <==> m.key.Some? && m.value.Some?
    ensures MissingInContent(m) == Some(RequiredNotSet("Key")) <==> m.key == None
    ensures MissingInContent(m) == Some(RequiredNotSet("Value")) <==> m.key.Some? && m.value == None
  {
    assert "Key"[0] != "Value"[0];
  }

  ghost predicate ContentSet(m: ContentMsg) {
    m.key.Some? && m.value.Some?
  }

  ghost predicate LogSet(m: LogMsg) {
    m.time.Some? && forall k :: 0 <= k < |m.contents| ==> ContentSet(m.contents[k])
  }

  ghost predicate GroupSet(m: GroupMsg) {
    forall k :: 0 <= k < |m.logs| ==> LogSet(m.logs[k])
  }

  /** A log is written exactly when its time and all fields of its contents are set. */
  lemma LogFails(m: LogMsg)
    ensures MissingInLog(m) == None <==> LogSet(m)
    ensures m.time == None ==> MissingInLog(m) == Some(RequiredNotSet("Time"))
    ensures forall k :: m.time.Some? && 0 <= k < |m.contents| && !ContentSet(m.contents[k])
                        && (forall j :: 0 <= j < k ==> ContentSet(m.contents[j])) ==>
      MissingInLog(m) == Some(RequiredNotSet(if m.contents[k].key == None then "Key" else "Value"))
  {
    FirstMissingExact(MissingInContent, m.contents);
    forall k | 0 <= k < |m.contents|
      ensures MissingInContent(m.contents[k]) == None <==> ContentSet(m.contents[k])
      ensures !ContentSet(m.contents[k]) ==>
        MissingInContent(m.contents[k]) == Some(RequiredNotSet(if m.contents[k].key == None then "Key" else "Value"))
    {
      ContentFails(m.contents[k]);
    }
    hide MissingInContent, FirstMissing, ContentSet;
  }

  /** A group is written exactly when all its logs are. */
  lemma GroupFails(m: GroupMsg)
    ensures MissingInGroup(m) == None <==> GroupSet(m)
  {
    FirstMissingExact(MissingInLog, m.logs);
    forall k | 0 <= k < |m.logs|
      ensures MissingInLog(m.logs[k]) == None <==> LogSet(m.logs[k])
    {
      LogFails(m.logs[k]);
    }
    hide MissingInLog, FirstMissing, LogSet;
  }

  /** A list is written exactly when every required field at every level is set. */
  lemma ListFails(m: ListMsg)
    ensures MissingInList(m) == None <==>
      forall g, l :: 0 <= g < |m.groups| && 0 <= l < |m.groups[g].logs| ==> LogSet(m.groups[g].logs[l])
  {
    FirstMissingExact(MissingInGroup, m.groups);
    forall k | 0 <= k < |m.groups|
      ensures MissingInGroup(m.groups[k]) == None <==> GroupSet(m.groups[k])
    {
      GroupFails(m.groups[k]);
    }
    hide MissingInGroup, FirstMissing, LogSet;
  }

  // ---------- tags, lengths and wire types ----------

  /**
   A tag that was written as the 64-bit number v: the low three bits are the wire type, where 4 is refused,
   and the next 32 bits the field number, where 0 and what is negative in 32 bits are refused.
   */
  lemma TagReads(v: nat, t: bytes)
    requires v < 0x1_0000_0000_0000_0000
    ensures var num := v / 8 % 0x1_0000_0000;
      ReadTag(EncVarint(v) + t)
      == if v % 8 == 4 then Err(EndGroup)
         else if num == 0 || num >= 0x8000_0000 then Err(IllegalTag)
         else Ok(Tag(num, v % 8, |EncVarint(v)|))
  {
    VarintRoundTrip(v, t);
    NumberOfTag(v);
    hide EncVarint, ReadVarint, FieldNumber;
  }

  lemma NumberOfTag(v: nat)
    requires v < 0x1_0000_0000_0000_0000
    ensures var num := v / 8 % 0x1_0000_0000; FieldNumber(v) == if num < 0x8000_0000 then num else num - 0x1_0000_0000
  {
    assert v % TWO_64 == v;
  }

  /** A length from 2^63 on is negative as a Go int, and refused. */
  lemma LengthReads(n: nat, t: bytes)
    requires n < 0x1_0000_0000_0000_0000
    ensures ReadLength(EncVarint(n) + t)
         == if n >= 0x8000_0000_0000_0000 then Err(InvalidLength) else Ok(Scan(n, |EncVarint(n)|))
  {
    VarintRoundTrip(n, t);
    hide EncVarint, ReadVarint;
  }

  lemma WrongScan(schema: Schema, num: nat, wireType: nat, t: bytes)
    requires 1 <= num <= 15 && num in schema && wireType < 8 && wireType != 4 && wireType != schema[num]
    ensures ScanField(schema, [8 * num + wireType] + t) == Err(WrongWireType(num))
  {
    ReadSmallTag(num, wireType, t);
  }

  /** Every declared field is refused with any wire type but its own: all are length-delimited but Time. */
  lemma WrongWireTypes(wireType: nat, t: bytes, c: ContentMsg, l: LogMsg, g: GroupMsg, gs: ListMsg)
    requires wireType < 8 && wireType != 4
    ensures wireType != 2 ==>
      && (forall num :: 1 <= num <= 2 ==> DecodeContent(c, [8 * num + wireType] + t) == Err(WrongWireType(num)))
      && DecodeLog(l, [16 + wireType] + t) == Err(WrongWireType(2))
      && (forall num :: 1 <= num <= 4 ==> DecodeGroup(g, [8 * num + wireType] + t) == Err(WrongWireType(num)))
      && DecodeList(gs, [8 + wireType] + t) == Err(WrongWireType(1))
    ensures wireType != 0 ==> DecodeLog(l, [8 + wireType] + t) == Err(WrongWireType(1))
  {
    hide ScanField;
    if wireType != 0 {
      WrongScan(LogSchema, 1, wireType, t);
    }
    if wireType != 2 {
      forall num | 1 <= num <= 2
        ensures DecodeContent(c, [8 * num + wireType] + t) == Err(WrongWireType(num))
      {
        WrongScan(ContentSchema, num, wireType, t);
      }
      WrongScan(LogSchema, 2, wireType, t);
      forall num | 1 <= num <= 4
        ensures DecodeGroup(g, [8 * num + wireType] + t) == Err(WrongWireType(num))
      {
        WrongScan(GroupSchema, num, wireType, t);
      }
      WrongScan(ListSchema, 1, wireType, t);
    }
  }
}
