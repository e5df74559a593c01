/**
 The four message types of `internal/logs/alils/log.pb.go` as objects: fields that `Unmarshal` sets
 and appends to in place, and writers that fill a buffer sized in advance. `Message()` is the value
 an object holds; the methods are proved against the functions on values in LogMessages.
 */
module LogClasses {
  import opened Basics
  import opened Wire
  import opened LogMessages
  import opened LogTheorems
  import opened LogCodec

  class LogContent {
    var key: Option<bytes>
    var value: Option<bytes>
    var unrecognized: bytes

    ghost function Message(): ContentMsg
      reads this
    {
      ContentMsg(key, value, unrecognized)
    }

    constructor ()
      ensures Message() == EmptyContent
    {
      key, value, unrecognized := None, None, [];
    }

    method Size() returns (n: nat)
      ensures n == |EncContent(Message())|
    {
      var k := SizeOption(1, key);
      var v := SizeOption(2, value);
      n := k + v + |unrecognized|;
    }

    method MarshalTo(data: array<byte>, off: nat) returns (n: nat, err: Option<WireError>)
      requires off + |EncContent(Message())| <= data.Length
      modifies data
      ensures Written(old(data[..]), data[..], off, MissingInContent(Message()), EncContent(Message()), n, err)
    {
      ghost var before, enc := data[..], EncContent(Message());
      if key.None? {
        return 0, Some(RequiredNotSet("Key"));
      }
      var i := PutTagged(data, off, 1, key.value, before, off, []);
      ghost var done := Tagged(1, key.value);
      assert [] + done == done;
      if value.None? {
        StoredWithin(before, data[..], off, done, |enc|);
        return 0, Some(RequiredNotSet("Value"));
      }
      i := PutTagged(data, i, 2, value.value, before, off, done);
      i := PutRaw(data, i, unrecognized, before, off, done + Tagged(2, value.value));
      StoredWithin(before, data[..], off, enc, |enc|);
      return i - off, None;
    }

    method Marshal() returns (data: bytes, err: Option<WireError>)
      ensures MarshalContent(Message()) == if err.Some? then Err(err.value) else Ok(data)
    {
      var size := Size();
      var buf := new byte[size](_ => 0);
      ghost var before := buf[..];
      var n;
      n, err := MarshalTo(buf, 0);
      if err.Some? {
        return [], err;
      }
      StoredReads(before, buf[..], 0, EncContent(Message()));
      assert buf[..n] == buf[..][0..n];
      return buf[..n], None;
    }

    method Unmarshal(data: bytes) returns (err: Option<WireError>)
      modifies this
      ensures match DecodeContent(old(Message()), data)
        case Err(e) => err == Some(e)
        case Ok(m) => err == None && Message() == m
    {
      var hasKey, hasValue, l, i := false, false, |data|, 0;
      hide Fold;
      ghost var verdict := Fold(ContentSchema, ApplyContent, ContentState(Message(), hasKey, hasValue), data);
      ReachedStart(ContentSchema, ApplyContent, ContentState(Message(), hasKey, hasValue), data);
      while i < l
        invariant Reached(ContentSchema, ApplyContent, verdict, data, ContentState(Message(), hasKey, hasValue), i)
      {
        ReachedTurn(ContentSchema, ApplyContent, verdict, data, ContentState(Message(), hasKey, hasValue), i);
        var f;
        f, i, err := DecodeField(ContentSchema, data, i);
        if err.Some? {
          return;
        }
        hasKey, hasValue, err := Store(f, hasKey, hasValue);
        if err.Some? {
          return;
        }
      }
      ReachedEnd(ContentSchema, ApplyContent, verdict, data, ContentState(Message(), hasKey, hasValue));
      if !hasKey {
        return Some(RequiredNotSet("Key"));
      }
      if !hasValue {
        return Some(RequiredNotSet("Value"));
      }
      return None;
    }

    // The switch on the field number; the results are the updated bits of `hasFields`.
    method Store(f: Field, hadKey: bool, hadValue: bool) returns (hasKey: bool, hasValue: bool, err: Option<WireError>)
      modifies this
      ensures err == None
      ensures ApplyContent(ContentState(old(Message()), hadKey, hadValue), f)
           == Ok(ContentState(Message(), hasKey, hasValue))
    {
      hasKey, hasValue, err := hadKey, hadValue, None;
      match f
      case BytesField(num, text) =>
        if num == 1 {
          key, hasKey := Some(text), true;
        } else {
          value, hasValue := Some(text), true;
        }
      case UnknownField(raw) =>
        unrecognized := unrecognized + raw;
      case VarintField(_, _) =>
    }
  }

  class Log {
    var time: Option<uint32>
    var contents: seq<LogContent>
    var unrecognized: bytes
    ghost var contentMsgs: seq<ContentMsg>  // what the contents hold

    ghost predicate Valid()
      reads this, contents
    {
      |contentMsgs| == |contents| && forall k :: 0 <= k < |contents| ==> contents[k].Message() == contentMsgs[k]
    }

    ghost function Message(): LogMsg
      reads this
    {
      LogMsg(time, contentMsgs, unrecognized)
    }

    constructor ()
      ensures Valid() && Message() == EmptyLog && contents == []
    {
      time, contents, unrecognized := None, [], [];
      contentMsgs := [];
    }

    method Size() returns (n: nat)
      requires Valid()
      ensures n == |EncLog(Message())|
    {
      n := 0;
      if time.Some? {
        var s := SovLog(time.value);
        n := n + 1 + s;
      }
      var l := ContentsSize();
      n := n + l + |unrecognized|;
    }

    method MarshalTo(data: array<byte>, off: nat) returns (n: nat, err: Option<WireError>)
      requires Valid() && off + |EncLog(Message())| <= data.Length
      modifies data
      ensures Written(old(data[..]), data[..], off, MissingInLog(Message()), EncLog(Message()), n, err)
    {
      ghost var before, enc := data[..], EncLog(Message());
      if time.None? {
        return 0, Some(RequiredNotSet("Time"));
      }
      ghost var head := TaggedVarint(1, time.value);
      var i := PutVarint(data, off, 1, time.value, before);
      i, err := PutContents(data, i, before, off, head, |enc|);
      if err.Some? {
        return 0, err;
      }
      i := PutRaw(data, i, unrecognized, before, off, head + EncAll(2, EncContent, contentMsgs));
      StoredWithin(before, data[..], off, enc, |enc|);
      return i - off, None;
    }

    method ContentSize(k: nat) returns (n: nat)
      requires Valid() && k < |contents|
      ensures n == |Tagged(2, EncContent(contentMsgs[k]))|
    {
      hide EncContent;
      var l := contents[k].Size();
      n := SizeChild(2, l, EncContent(contentMsgs[k]));
    }

    method ContentsSize() returns (n: nat)
      requires Valid()
      ensures n == |EncAll(2, EncContent, contentMsgs)|
    {
      n := 0;
      assert EncAll(2, EncContent, contentMsgs[..0]) == [] && |contentMsgs| == |contents|;
      hide *;
      for k := 0 to |contents|
        invariant Valid() && |contentMsgs| == |contents| && n == |EncAll(2, EncContent, contentMsgs[..k])|
      {
        var l := ContentSize(k);
        EncAllSize(2, EncContent, contentMsgs, k);
        n := n + l;
      }
      assert contentMsgs[..|contents|] == contentMsgs;
    }

    // One turn of the loop over the contents: tag, length and the child itself.
    method PutContent(k: nat, data: array<byte>, start: nat, ghost before: bytes, ghost off: nat,
                  ghost done: bytes, ghost size: nat) returns (i: nat, err: Option<WireError>)
      requires Valid() && k < |contents|
      requires start == off + |done| && Stored(before, data[..], off, done)
      requires |done| + |Tagged(2, EncContent(contentMsgs[k]))| <= size && off + size <= |before|
      modifies data
      ensures err == MissingInContent(contentMsgs[k])
      ensures err.Some? ==> OnlyWithin(before, data[..], off, size)
      ensures err == None ==>
        && i == start + |Tagged(2, EncContent(contentMsgs[k]))|
        && Stored(before, data[..], off, done + Tagged(2, EncContent(contentMsgs[k])))
    {
      hide EncContent, MissingInContent;
      ghost var e := EncContent(contentMsgs[k]);
      ghost var begun := done + ([8 * 2 + 2] + EncVarint(|e|));
      var l := contents[k].Size();
      i := PutLength(data, start, 2, l, before, off, done);
      ghost var middle := data[..];
      var n;
      n, err := contents[k].MarshalTo(data, i);
      ChildDone(before, middle, data[..], off, begun, size, MissingInContent(contentMsgs[k]), e, n, err);
      i := i + n;
      TaggedAfter(2, done, e);
    }

    // The same turn, as part of the loop.
    method NextContent(k: nat, data: array<byte>, start: nat, ghost c: Children<ContentMsg>, ghost done: bytes)
      returns (i: nat, err: Option<WireError>, ghost more: bytes)
      requires Valid() && k < |contents|
      requires c.num == 2 && c.enc == EncContent && c.missing == MissingInContent && c.ms == contentMsgs
      requires Putting(c, k, start, data[..], done)
      modifies data
      ensures Valid()
      ensures err.Some? ==> err == FirstMissing(MissingInContent, contentMsgs) && OnlyWithin(c.before, data[..], c.off, c.size)
      ensures err == None ==> Putting(c, k + 1, i, data[..], more)
    {
      assert |contentMsgs| == |contents|;
      hide *;
      ghost var now := data[..];
      PuttingRoom(c, k, start, now, done);
      i, err := PutContent(k, data, start, c.before, c.off, done, c.size);
      PuttingNext(c, k, start, now, done, data[..]);
      more := done + Tagged(2, EncContent(c.ms[k]));
    }

    // The loop over the contents, from where the time has been written.
    method PutContents(data: array<byte>, start: nat, ghost before: bytes, ghost off: nat, ghost head: bytes,
                       ghost size: nat) returns (i: nat, err: Option<WireError>)
      requires Valid() && start == off + |head| && Stored(before, data[..], off, head)
      requires head != [] && |head| + |EncAll(2, EncContent, contentMsgs)| <= size && off + size <= |before|
      modifies data
      ensures err == FirstMissing(MissingInContent, contentMsgs)
      ensures err.Some? ==> OnlyWithin(before, data[..], off, size)
      ensures err == None ==>
        && i == start + |EncAll(2, EncContent, contentMsgs)|
        && Stored(before, data[..], off, head + EncAll(2, EncContent, contentMsgs))
    {
      ghost var c := Children(2, EncContent, MissingInContent, contentMsgs, before, off, head, size);
      ghost var done := head;
      i, err := start, None;
      PuttingStart(c, data[..]);
      assert |contentMsgs| == |contents|;
      hide *;
      for k := 0 to |contents|
        invariant Valid() && contentMsgs == c.ms && |c.ms| == |contents| && err == None
        invariant Putting(c, k, i, data[..], done)
      {
        i, err, done := NextContent(k, data, i, c, done);
        if err.Some? {
          return;
        }
      }
      PuttingEnd(c, i, data[..], done);
    }

    method Marshal() returns (data: bytes, err: Option<WireError>)
      requires Valid()
      ensures MarshalLog(Message()) == if err.Some? then Err(err.value) else Ok(data)
    {
      hide EncLog, MissingInLog;
      var size := Size();
      var buf := new byte[size](_ => 0);
      ghost var before := buf[..];
      var n;
      n, err := MarshalTo(buf, 0);
      if err.Some? {
        return [], err;
      }
      StoredReads(before, buf[..], 0, EncLog(Message()));
      assert buf[..n] == buf[..][0..n];
      return buf[..n], None;
    }

    method Unmarshal(data: bytes) returns (err: Option<WireError>)
      requires Valid()
      modifies this
      ensures Valid()
      ensures match DecodeLog(old(Message()), data)
        case Err(e) => err == Some(e)
        case Ok(m) => err == None && Message() == m
    {
      var hasTime, l, i := false, |data|, 0;
      hide Fold;
      ghost var verdict := Fold(LogSchema, ApplyLog, LogState(Message(), hasTime), data);
      ReachedStart(LogSchema, ApplyLog, LogState(Message(), hasTime), data);
      while i < l
        invariant Valid() && Reached(LogSchema, ApplyLog, verdict, data, LogState(Message(), hasTime), i)
      {
        ReachedTurn(LogSchema, ApplyLog, verdict, data, LogState(Message(), hasTime), i);
        var f;
        f, i, err := DecodeField(LogSchema, data, i);
        if err.Some? {
          return;
        }
        hasTime, err := Store(f, hasTime);
        if err.Some? {
          return;
        }
      }
      ReachedEnd(LogSchema, ApplyLog, verdict, data, LogState(Message(), hasTime));
      if !hasTime {
        return Some(RequiredNotSet("Time"));
      }
      return None;
    }

    // The switch on the field number.
    method Store(f: Field, hadTime: bool) returns (hasTime: bool, err: Option<WireError>)
      requires Valid()
      modifies this
      ensures Valid()
      ensures match ApplyLog(LogState(old(Message()), hadTime), f)
        case Err(e) => err == Some(e)
        case Ok(s) => err == None && LogState(Message(), hasTime) == s
    {
      hide Fold;
      hasTime, err := hadTime, None;
      match f
      case VarintField(_, v) =>
        time, hasTime := Some(v), true;
      case BytesField(_, text) =>
        var content := new LogContent();
        contents := contents + [content];
        err := content.Unmarshal(text);
        contentMsgs := contentMsgs + [content.Message()];
      case UnknownField(raw) =>
        unrecognized := unrecognized + raw;
    }
  }

  class LogGroup {
    var logs: seq<Log>
    var reserved: Option<bytes>
    var topic: Option<bytes>
    var source: Option<bytes>
    var unrecognized: bytes
    ghost var logMsgs: seq<LogMsg>  // what the logs hold
    ghost var members: set<Log>     // the logs
    ghost var leaves: set<LogContent>  // and their contents

    ghost predicate Valid()
      reads this, members, leaves
    {
      |logMsgs| == |logs| && forall k :: 0 <= k < |logs| ==>
        && logs[k] in members && (forall c :: c in logs[k].contents ==> c in leaves)
        && logs[k].Valid() && logs[k].Message() == logMsgs[k]
    }

    ghost function Message(): GroupMsg
      reads this
    {
      GroupMsg(logMsgs, reserved, topic, source, unrecognized)
    }

    constructor ()
      ensures Valid() && Message() == EmptyGroup
    {
      logs, reserved, topic, source, unrecognized := [], None, None, None, [];
      logMsgs, members, leaves := [], {}, {};
    }

    method Size() returns (n: nat)
      requires Valid()
      ensures n == |EncGroup(Message())|
    {
      var l := LogsSize();
      var r := SizeOption(2, reserved);
      var t := SizeOption(3, topic);
      var s := SizeOption(4, source);
      n := l + r + t + s + |unrecognized|;
    }

    method MarshalTo(data: array<byte>, off: nat) returns (n: nat, err: Option<WireError>)
      requires Valid() && off + |EncGroup(Message())| <= data.Length
      modifies data
      ensures Written(old(data[..]), data[..], off, MissingInGroup(Message()), EncGroup(Message()), n, err)
    {
      ghost var before, enc := data[..], EncGroup(Message());
      var i;
      i, err := PutLogs(data, off, before, |enc|);
      if err.Some? {
        return 0, err;
      }
      ghost var done := EncAll(1, EncLog, logMsgs);
      i := PutOption(data, i, 2, reserved, before, off, done);
      done := done + TaggedOption(2, reserved);
      i := PutOption(data, i, 3, topic, before, off, done);
      done := done + TaggedOption(3, topic);
      i := PutOption(data, i, 4, source, before, off, done);
      done := done + TaggedOption(4, source);
      i := PutRaw(data, i, unrecognized, before, off, done);
      StoredWithin(before, data[..], off, enc, |enc|);
      return i - off, None;
    }

    method LogSize(k: nat) returns (n: nat)
      requires Valid() && k < |logs|
      ensures n == |Tagged(1, EncLog(logMsgs[k]))|
    {
      hide EncLog;
      var l := logs[k].Size();
      n := SizeChild(1, l, EncLog(logMsgs[k]));
    }

    method LogsSize() returns (n: nat)
      requires Valid()
      ensures n == |EncAll(1, EncLog, logMsgs)|
    {
      n := 0;
      assert EncAll(1, EncLog, logMsgs[..0]) == [] && |logMsgs| == |logs|;
      hide *;
      for k := 0 to |logs|
        invariant Valid() && |logMsgs| == |logs| && n == |EncAll(1, EncLog, logMsgs[..k])|
      {
        var l := LogSize(k);
        EncAllSize(1, EncLog, logMsgs, k);
        n := n + l;
      }
      assert logMsgs[..|logs|] == logMsgs;
    }

    // One turn of the loop over the logs: tag, length and the child itself.
    method PutLog(k: nat, data: array<byte>, start: nat, ghost before: bytes, ghost off: nat,
                  ghost done: bytes, ghost size: nat) returns (i: nat, err: Option<WireError>)
      requires Valid() && k < |logs|
      requires start == off + |done| && Stored(before, data[..], off, done)
      requires |done| + |Tagged(1, EncLog(logMsgs[k]))| <= size && off + size <= |before|
      modifies data
      ensures Valid() && err == MissingInLog(logMsgs[k])
      ensures err.Some? ==> OnlyWithin(before, data[..], off, size)
      ensures err == None ==>
        && i == start + |Tagged(1, EncLog(logMsgs[k]))|
        && Stored(before, data[..], off, done + Tagged(1, EncLog(logMsgs[k])))
    {
      hide EncLog, MissingInLog;
      ghost var e := EncLog(logMsgs[k]);
      ghost var begun := done + ([8 * 1 + 2] + EncVarint(|e|));
      var l := logs[k].Size();
      i := PutLength(data, start, 1, l, before, off, done);
      ghost var middle := data[..];
      var n;
      n, err := logs[k].MarshalTo(data, i);
      ChildDone(before, middle, data[..], off, begun, size, MissingInLog(logMsgs[k]), e, n, err);
      i := i + n;
      TaggedAfter(1, done, e);
    }

    // The same turn, as part of the loop.
    method NextLog(k: nat, data: array<byte>, start: nat, ghost c: Children<LogMsg>, ghost done: bytes)
      returns (i: nat, err: Option<WireError>, ghost more: bytes)
      requires Valid() && k < |logs|
      requires c.num == 1 && c.enc == EncLog && c.missing == MissingInLog && c.ms == logMsgs
      requires Putting(c, k, start, data[..], done)
      modifies data
      ensures Valid()
      ensures err.Some? ==> err == FirstMissing(MissingInLog, logMsgs) && OnlyWithin(c.before, data[..], c.off, c.size)
      ensures err == None ==> Putting(c, k + 1, i, data[..], more)
    {
      assert |logMsgs| == |logs|;
      hide *;
      ghost var now := data[..];
      PuttingRoom(c, k, start, now, done);
      i, err := PutLog(k, data, start, c.before, c.off, done, c.size);
      PuttingNext(c, k, start, now, done, data[..]);
      more := done + Tagged(1, EncLog(c.ms[k]));
    }

    // The loop over the logs, from the start of the message.
    method PutLogs(data: array<byte>, off: nat, ghost before: bytes, ghost size: nat) returns (i: nat, err: Option<WireError>)
      requires Valid() && |EncAll(1, EncLog, logMsgs)| <= size && off + size <= data.Length && data[..] == before
      modifies data
      ensures err == FirstMissing(MissingInLog, logMsgs)
      ensures err.Some? ==> OnlyWithin(before, data[..], off, size)
      ensures err == None ==>
        && i == off + |EncAll(1, EncLog, logMsgs)|
        && Stored(before, data[..], off, EncAll(1, EncLog, logMsgs))
    {
      ghost var c := Children(1, EncLog, MissingInLog, logMsgs, before, off, [], size);
      ghost var done: bytes := [];
      i, err := off, None;
      PuttingStart(c, data[..]);
      assert |logMsgs| == |logs|;
      hide *;
      for k := 0 to |logs|
        invariant Valid() && logMsgs == c.ms && |c.ms| == |logs| && err == None
        invariant Putting(c, k, i, data[..], done)
      {
        i, err, done := NextLog(k, data, i, c, done);
        if err.Some? {
          return;
        }
      }
      PuttingEnd(c, i, data[..], done);
    }

    method Marshal() returns (data: bytes, err: Option<WireError>)
      requires Valid()
      ensures MarshalGroup(Message()) == if err.Some? then Err(err.value) else Ok(data)
    {
      hide EncGroup, MissingInGroup;
      var size := Size();
      var buf := new byte[size](_ => 0);
      ghost var before := buf[..];
      var n;
      n, err := MarshalTo(buf, 0);
      if err.Some? {
        return [], err;
      }
      StoredReads(before, buf[..], 0, EncGroup(Message()));
      assert buf[..n] == buf[..][0..n];
      return buf[..n], None;
    }

    method Unmarshal(data: bytes) returns (err: Option<WireError>)
      requires Valid()
      modifies this
      ensures Valid()
      ensures match DecodeGroup(old(Message()), data)
        case Err(e) => err == Some(e)
        case Ok(m) => err == None && Message() == m
    {
      var l, i := |data|, 0;
      hide Fold;
      ghost var verdict := Fold(GroupSchema, ApplyGroup, Message(), data);
      ReachedStart(GroupSchema, ApplyGroup, Message(), data);
      while i < l
        invariant Valid() && Reached(GroupSchema, ApplyGroup, verdict, data, Message(), i)
      {
        ReachedTurn(GroupSchema, ApplyGroup, verdict, data, Message(), i);
        var f;
        f, i, err := DecodeField(GroupSchema, data, i);
        if err.Some? {
          return;
        }
        err := Store(f);
        if err.Some? {
          return;
        }
      }
      ReachedEnd(GroupSchema, ApplyGroup, verdict, data, Message());
      return None;
    }

    // A new log, unmarshalled from its bytes.
    static method ReadLog(text: bytes) returns (log: Log, err: Option<WireError>)
      ensures fresh(log) && log.Valid()
      ensures match DecodeLog(EmptyLog, text)
        case Err(e) => err == Some(e)
        case Ok(m) => err == None && log.Message() == m
    {
      log := new Log();
      err := log.Unmarshal(text);
    }

    // It goes to the end of the list.
    method AddLog(text: bytes) returns (err: Option<WireError>)
      requires Valid()
      modifies this`logs, this`logMsgs, this`members, this`leaves
      ensures Valid()
      ensures match DecodeLog(EmptyLog, text)
        case Err(e) => err == Some(e)
        case Ok(m) => err == None && logMsgs == old(logMsgs) + [m]
    {
      var log;
      log, err := ReadLog(text);
      hide DecodeLog;
      logs := logs + [log];
      logMsgs := logMsgs + [log.Message()];
      members, leaves := members + {log}, leaves + set c | c in log.contents;
    }

    // The switch on the field number.
    method Store(f: Field) returns (err: Option<WireError>)
      requires Valid()
      modifies this
      ensures Valid()
      ensures match ApplyGroup(old(Message()), f)
        case Err(e) => err == Some(e)
        case Ok(m) => err == None && Message() == m
    {
      hide Fold;
      err := None;
      match f
      case BytesField(num, text) =>
        if num == 1 {
          err := AddLog(text);
        } else if num == 2 {
          reserved := Some(text);
        } else if num == 3 {
          topic := Some(text);
        } else {
          source := Some(text);
        }
      case UnknownField(raw) =>
        unrecognized := unrecognized + raw;
      case VarintField(_, _) =>
    }
  }

  class LogGroupList {
    var groups: seq<LogGroup>
    var unrecognized: bytes
    ghost var groupMsgs: seq<GroupMsg>  // what the groups hold
    ghost var owned: set<LogGroup>      // the groups
    ghost var members: set<Log>         // their logs
    ghost var leaves: set<LogContent>   // and the contents of these

    ghost predicate Valid()
      reads this, owned, members, leaves
    {
      |groupMsgs| == |groups| && forall k :: 0 <= k < |groups| ==>
        && groups[k] in owned && groups[k].members <= members && groups[k].leaves <= leaves
        && groups[k].Valid() && groups[k].Message() == groupMsgs[k]
    }

    ghost function Message(): ListMsg
      reads this
    {
      ListMsg(groupMsgs, unrecognized)
    }

    constructor ()
      ensures Valid() && Message() == EmptyList
    {
      groups, unrecognized := [], [];
      groupMsgs, owned, members, leaves := [], {}, {}, {};
    }

    method Size() returns (n: nat)
      requires Valid()
      ensures n == |EncList(Message())|
    {
      n := GroupsSize();
      n := n + |unrecognized|;
    }

    method MarshalTo(data: array<byte>, off: nat) returns (n: nat, err: Option<WireError>)
      requires Valid() && off + |EncList(Message())| <= data.Length
      modifies data
      ensures Written(old(data[..]), data[..], off, MissingInList(Message()), EncList(Message()), n, err)
    {
      ghost var before, enc := data[..], EncList(Message());
      var i;
      i, err := PutGroups(data, off, before, |enc|);
      if err.Some? {
        return 0, err;
      }
      i := PutRaw(data, i, unrecognized, before, off, EncAll(1, EncGroup, groupMsgs));
      StoredWithin(before, data[..], off, enc, |enc|);
      return i - off, None;
    }

    method GroupSize(k: nat) returns (n: nat)
      requires Valid() && k < |groups|
      ensures n == |Tagged(1, EncGroup(groupMsgs[k]))|
    {
      hide EncGroup;
      var l := groups[k].Size();
      n := SizeChild(1, l, EncGroup(groupMsgs[k]));
    }

    method GroupsSize() returns (n: nat)
      requires Valid()
      ensures n == |EncAll(1, EncGroup, groupMsgs)|
    {
      n := 0;
      assert EncAll(1, EncGroup, groupMsgs[..0]) == [] && |groupMsgs| == |groups|;
      hide *;
      for k := 0 to |groups|
        invariant Valid() && |groupMsgs| == |groups| && n == |EncAll(1, EncGroup, groupMsgs[..k])|
      {
        var l := GroupSize(k);
        EncAllSize(1, EncGroup, groupMsgs, k);
        n := n + l;
      }
      assert groupMsgs[..|groups|] == groupMsgs;
    }

    // One turn of the loop over the groups: tag, length and the child itself.
    method PutGroup(k: nat, data: array<byte>, start: nat, ghost before: bytes, ghost off: nat,
                  ghost done: bytes, ghost size: nat) returns (i: nat, err: Option<WireError>)
      requires Valid() && k < |groups|
      requires start == off + |done| && Stored(before, data[..], off, done)
      requires |done| + |Tagged(1, EncGroup(groupMsgs[k]))| <= size && off + size <= |before|
      modifies data
      ensures Valid() && err == MissingInGroup(groupMsgs[k])
      ensures err.Some? ==> OnlyWithin(before, data[..], off, size)
      ensures err == None ==>
        && i == start + |Tagged(1, EncGroup(groupMsgs[k]))|
        && Stored(before, data[..], off, done + Tagged(1, EncGroup(groupMsgs[k])))
    {
      hide EncGroup, MissingInGroup;
      ghost var e := EncGroup(groupMsgs[k]);
      ghost var begun := done + ([8 * 1 + 2] + EncVarint(|e|));
      var l := groups[k].Size();
      i := PutLength(data, start, 1, l, before, off, done);
      ghost var middle := data[..];
      var n;
      n, err := groups[k].MarshalTo(data, i);
      ChildDone(before, middle, data[..], off, begun, size, MissingInGroup(groupMsgs[k]), e, n, err);
      i := i + n;
      TaggedAfter(1, done, e);
    }

    // The same turn, as part of the loop.
    method NextGroup(k: nat, data: array<byte>, start: nat, ghost c: Children<GroupMsg>, ghost done: bytes)
      returns (i: nat, err: Option<WireError>, ghost more: bytes)
      requires Valid() && k < |groups|
      requires c.num == 1 && c.enc == EncGroup && c.missing == MissingInGroup && c.ms == groupMsgs
      requires Putting(c, k, start, data[..], done)
      modifies data
      ensures Valid()
      ensures err.Some? ==> err == FirstMissing(MissingInGroup, groupMsgs) && OnlyWithin(c.before, data[..], c.off, c.size)
      ensures err == None ==> Putting(c, k + 1, i, data[..], more)
    {
      assert |groupMsgs| == |groups|;
      hide *;
      ghost var now := data[..];
      PuttingRoom(c, k, start, now, done);
      i, err := PutGroup(k, data, start, c.before, c.off, done, c.size);
      PuttingNext(c, k, start, now, done, data[..]);
      more := done + Tagged(1, EncGroup(c.ms[k]));
    }

    // The loop over the groups, from the start of the message.
    method PutGroups(data: array<byte>, off: nat, ghost before: bytes, ghost size: nat) returns (i: nat, err: Option<WireError>)
      requires Valid() && |EncAll(1, EncGroup, groupMsgs)| <= size && off + size <= data.Length && data[..] == before
      modifies data
      ensures err == FirstMissing(MissingInGroup, groupMsgs)
      ensures err.Some? ==> OnlyWithin(before, data[..], off, size)
      ensures err == None ==>
        && i == off + |EncAll(1, EncGroup, groupMsgs)|
        && Stored(before, data[..], off, EncAll(1, EncGroup, groupMsgs))
    {
      ghost var c := Children(1, EncGroup, MissingInGroup, groupMsgs, before, off, [], size);
      ghost var done: bytes := [];
      i, err := off, None;
      PuttingStart(c, data[..]);
      assert |groupMsgs| == |groups|;
      hide *;
      for k := 0 to |groups|
        invariant Valid() && groupMsgs == c.ms && |c.ms| == |groups| && err == None
        invariant Putting(c, k, i, data[..], done)
      {
        i, err, done := NextGroup(k, data, i, c, done);
        if err.Some? {
          return;
        }
      }
      PuttingEnd(c, i, data[..], done);
    }

    method Marshal() returns (data: bytes, err: Option<WireError>)
      requires Valid()
      ensures MarshalList(Message()) == if err.Some? then Err(err.value) else Ok(data)
    {
      hide EncList, MissingInList;
      var size := Size();
      var buf := new byte[size](_ => 0);
      ghost var before := buf[..];
      var n;
      n, err := MarshalTo(buf, 0);
      if err.Some? {
        return [], err;
      }
      StoredReads(before, buf[..], 0, EncList(Message()));
      assert buf[..n] == buf[..][0..n];
      return buf[..n], None;
    }

    method Unmarshal(data: bytes) returns (err: Option<WireError>)
      requires Valid()
      modifies this
      ensures Valid()
      ensures match DecodeList(old(Message()), data)
        case Err(e) => err == Some(e)
        case Ok(m) => err == None && Message() == m
    {
      var l, i := |data|, 0;
      hide Fold;
      ghost var verdict := Fold(ListSchema, ApplyList, Message(), data);
      ReachedStart(ListSchema, ApplyList, Message(), data);
      while i < l
        invariant Valid() && Reached(ListSchema, ApplyList, verdict, data, Message(), i)
      {
        ReachedTurn(ListSchema, ApplyList, verdict, data, Message(), i);
        var f;
        f, i, err := DecodeField(ListSchema, data, i);
        if err.Some? {
          return;
        }
        err := Store(f);
        if err.Some? {
          return;
        }
      }
      ReachedEnd(ListSchema, ApplyList, verdict, data, Message());
      return None;
    }

    // A new group, unmarshalled from its bytes.
    static method ReadGroup(text: bytes) returns (group: LogGroup, err: Option<WireError>)
      ensures fresh(group) && group.Valid()
      ensures match DecodeGroup(EmptyGroup, text)
        case Err(e) => err == Some(e)
        case Ok(m) => err == None && group.Message() == m
    {
      group := new LogGroup();
      err := group.Unmarshal(text);
    }

    // It goes to the end of the list.
    method AddGroup(text: bytes) returns (err: Option<WireError>)
      requires Valid()
      modifies this`groups, this`groupMsgs, this`owned, this`members, this`leaves
      ensures Valid()
      ensures match DecodeGroup(EmptyGroup, text)
        case Err(e) => err == Some(e)
        case Ok(m) => err == None && groupMsgs == old(groupMsgs) + [m]
    {
      var group;
      group, err := ReadGroup(text);
      hide DecodeGroup;
      groups := groups + [group];
      groupMsgs := groupMsgs + [group.Message()];
      owned, members, leaves := owned + {group}, members + group.members, leaves + group.leaves;
    }

    // The switch on the field number.
    method Store(f: Field) returns (err: Option<WireError>)
      requires Valid()
      modifies this
      ensures Valid()
      ensures match ApplyList(old(Message()), f)
        case Err(e) => err == Some(e)
        case Ok(m) => err == None && Message() == m
    {
      hide Fold;
      err := None;
      match f
      case BytesField(_, text) =>
        err := AddGroup(text);
      case UnknownField(raw) =>
        unrecognized := unrecognized + raw;
      case VarintField(_, _) =>
    }
  }
}
