/**
 The rotating file logger of `internal/logs/file.go` over a directory of named files. What the
 operating system decides, whether a rename or an open succeeds and what time it is, is a parameter.
 */
module FileLog {
  import opened Basics

  const NEWLINE: byte := 10
  const MAX_NUMBER: nat := 999
  const CHUNK: nat := 32768

  // The file being written, and the names a rotated file can get: "base.date.suffix" and
  // "base.date.NNN.suffix".
  datatype Name = Active | Daily(date: nat) | Numbered(date: nat, num: nat)

  // A calendar date, and its day of the month, which is all that the daily check looks at.
  datatype Day = Day(date: nat, dayOfMonth: nat)

  datatype Env = Env(renameOk: bool, chmodOk: bool, openOk: bool, now: Day)

  datatype LogError = NoFreeNumber | RenameFailed | ChmodFailed | StatFailed | OpenFailed | WriteFailed

  function Lines(b: bytes): nat {
    if b == [] then 0 else (if b[0] == NEWLINE then 1 else 0) + Lines(b[1..])
  }

  lemma {:induction false} LinesConcat(a: bytes, b: bytes)
    ensures Lines(a + b) == Lines(a) + Lines(b)
  {
    if a == [] {
      assert a + b == b;
    } else {
      assert (a + b)[1..] == a[1..] + b;
      LinesConcat(a[1..], b);
    }
  }

  /** A line ends with a newline, byte 10. */
  lemma LinesCount(b: bytes, c: byte)
    ensures Lines([]) == 0 && Lines(b + [c]) == Lines(b) + if c == 10 then 1 else 0
  {
    LinesConcat(b, [c]);
    assert [c][1..] == [];
  }

  function Concat(parts: seq<bytes>): bytes {
    if parts == [] then [] else Concat(parts[..|parts| - 1]) + parts[|parts| - 1]
  }

  // The rotated files in the order in which they were made.
  function Contents(fs: map<Name, bytes>, names: seq<Name>): bytes
    requires forall k :: 0 <= k < |names| ==> names[k] in fs
  {
    if names == [] then [] else Contents(fs, names[..|names| - 1]) + fs[names[|names| - 1]]
  }

  lemma {:induction false} ContentsSame(fs: map<Name, bytes>, fs': map<Name, bytes>, names: seq<Name>)
    requires forall k :: 0 <= k < |names| ==> names[k] in fs && names[k] in fs' && fs[names[k]] == fs'[names[k]]
    ensures Contents(fs', names) == Contents(fs, names)
  {
    if names != [] {
      ContentsSame(fs, fs', names[..|names| - 1]);
    }
  }

  // ---------- a log on its files ----------

  function ActiveOf(fs: map<Name, bytes>): bytes {
    if Active in fs then fs[Active] else []
  }

  /** The log is conserved: rotated files and the current one hold the initial content and every line. */
  ghost predicate Conserved(fs: map<Name, bytes>, archive: seq<Name>, initial: bytes, accepted: seq<bytes>) {
    && (forall k :: 0 <= k < |archive| ==> archive[k] in fs && archive[k] != Active)
    && (forall j, k :: 0 <= j < k < |archive| ==> archive[j] != archive[k])
    && Contents(fs, archive) + ActiveOf(fs) == initial + Concat(accepted)
  }

  lemma OpenConserves(fs: map<Name, bytes>, archive: seq<Name>, initial: bytes, accepted: seq<bytes>)
    requires Conserved(fs, archive, initial, accepted)
    ensures Conserved(fs[Active := ActiveOf(fs)], archive, initial, accepted)
  {
    ContentsSame(fs, fs[Active := ActiveOf(fs)], archive);
  }

  lemma AppendConserves(fs: map<Name, bytes>, archive: seq<Name>, initial: bytes, accepted: seq<bytes>, line: bytes)
    requires Conserved(fs, archive, initial, accepted) && Active in fs
    ensures Conserved(fs[Active := fs[Active] + line], archive, initial, accepted + [line])
  {
    var more := accepted + [line];
    assert more[..|accepted|] == accepted;
    ContentsSame(fs, fs[Active := fs[Active] + line], archive);
    ConcatAssoc(Contents(fs, archive), fs[Active], line);
    ConcatAssoc(initial, Concat(accepted), line);
  }

  // The files after a rename of the active one.
  function Renamed(fs: map<Name, bytes>, name: Name): map<Name, bytes>
    requires Active in fs
  {
    (fs - {Active})[name := fs[Active]]
  }

  lemma RenameConserves(fs: map<Name, bytes>, archive: seq<Name>, initial: bytes, accepted: seq<bytes>, name: Name)
    requires Conserved(fs, archive, initial, accepted) && Active in fs && name !in fs && name != Active
    ensures Conserved(Renamed(fs, name), archive + [name], initial, accepted)
  {
    var longer := archive + [name];
    assert longer[..|archive|] == archive;
    ContentsSame(fs, Renamed(fs, name), archive);
    assert Contents(Renamed(fs, name), longer) + [] == Contents(Renamed(fs, name), longer);
  }

  // ---------- limits ----------

  ghost predicate WithinLimits(content: bytes, last: nat, maxLines: int, maxSize: int) {
    && (maxLines > 0 ==> Lines(content) <= maxLines)
    && (maxSize > 0 ==> |content| <= maxSize - 1 + last)
  }

  // `lastLen` has the length of the last message of every file of the log.
  predicate Recorded(archive: seq<Name>, lastLen: map<Name, nat>) {
    Active in lastLen && forall k :: 0 <= k < |archive| ==> archive[k] in lastLen
  }

  /** No file holds too many lines, and none is longer than the limit allows before its last message. */
  ghost predicate FilesLimited(fs: map<Name, bytes>, archive: seq<Name>, lastLen: map<Name, nat>, maxLines: int, maxSize: int) {
    && Active in fs && Recorded(archive, lastLen)
    && WithinLimits(fs[Active], lastLen[Active], maxLines, maxSize)
    && forall k :: 0 <= k < |archive| ==>
         archive[k] in fs && archive[k] != Active && WithinLimits(fs[archive[k]], lastLen[archive[k]], maxLines, maxSize)
  }

  // There was room, and a line has been appended.
  lemma AppendLimited(fs: map<Name, bytes>, archive: seq<Name>, lastLen: map<Name, nat>, maxLines: int, maxSize: int, line: bytes)
    requires FilesLimited(fs, archive, lastLen, maxLines, maxSize) && Lines(line) == 1
    requires (maxLines > 0 ==> Lines(fs[Active]) < maxLines) && (maxSize > 0 ==> |fs[Active]| < maxSize)
    ensures FilesLimited(fs[Active := fs[Active] + line], archive, lastLen[Active := |line|], maxLines, maxSize)
  {
    LinesConcat(fs[Active], line);
    hide Lines;
  }

  // The active file has been rotated away, and a new one opened.
  lemma RotateLimited(fs: map<Name, bytes>, archive: seq<Name>, lastLen: map<Name, nat>, maxLines: int, maxSize: int, name: Name)
    requires FilesLimited(fs, archive, lastLen, maxLines, maxSize) && name !in fs && name != Active
    ensures FilesLimited(Renamed(fs, name)[Active := []], archive + [name],
                         lastLen[name := lastLen[Active]][Active := 0], maxLines, maxSize)
  {
    assert Lines([]) == 0;
    hide Lines;
  }

  /** `lines`: newlines counted in reads of 32k. */
  method CountLines(data: bytes) returns (count: nat)
    ensures count == Lines(data)
  {
    count := 0;
    var i := 0;
    assert data[..0] == [];
    while i < |data|
      invariant i <= |data| && count == Lines(data[..i])
    {
      var c := if |data| - i < CHUNK then |data| - i else CHUNK;
      LinesConcat(data[..i], data[i..i + c]);
      assert data[..i] + data[i..i + c] == data[..i + c];
      var n := CountIn(data[i..i + c]);
      count, i := count + n, i + c;
    }
    assert data[..i] == data;
  }

  // bytes.Count(buf, lineSep)
  method CountIn(buf: bytes) returns (n: nat)
    ensures n == Lines(buf)
  {
    n := 0;
    assert buf[..0] == [];
    for k := 0 to |buf|
      invariant n == Lines(buf[..k])
    {
      LinesConcat(buf[..k], [buf[k]]);
      assert buf[..k] + [buf[k]] == buf[..k + 1];
      assert [buf[k]][1..] == [];
      if buf[k] == NEWLINE {
        n := n + 1;
      }
    }
    assert buf[..|buf|] == buf;
  }

  class FileLogWriter {
    const maxLines: int
    const maxSize: int
    const daily: bool
    const rotate: bool
    const level: int

    var fs: map<Name, bytes>
    var isOpen: bool  // the handle is open, on the active file
    var curLines: nat
    var curSize: nat
    var openTime: Day

    // History: what the active file held at the start, the lines written since, the rotated files, and
    // for every file the length of its last message.
    ghost var initial: bytes
    ghost var accepted: seq<bytes>
    ghost var archive: seq<Name>
    ghost var lastLen: map<Name, nat>

    ghost function Current(): bytes
      reads this
    {
      ActiveOf(fs)
    }

    /** The size counter is right while the file is open, and the log is conserved. */
    ghost predicate Valid()
      reads this
    {
      && (isOpen ==> Active in fs && curSize == |fs[Active]|)
      && Recorded(archive, lastLen) && Conserved(fs, archive, initial, accepted)
    }

    /** The line counter is right too, and every file within the limits. */
    ghost predicate Limited()
      reads this
    {
      && isOpen && Valid() && curLines == Lines(fs[Active])
      && FilesLimited(fs, archive, lastLen, maxLines, maxSize)
    }

    // ---------- opening ----------

    /** A writer with its configuration, before it has opened anything. */
    constructor (maxLines: int, maxSize: int, daily: bool, rotate: bool, level: int, fs: map<Name, bytes>)
      ensures Valid() && !isOpen && archive == [] && accepted == [] && lastLen == map[Active := 0]
      ensures this.fs == fs && initial == Current()
      ensures this.maxLines == maxLines && this.maxSize == maxSize && this.daily == daily
      ensures this.rotate == rotate && this.level == level
    {
      this.maxLines, this.maxSize, this.daily, this.rotate, this.level := maxLines, maxSize, daily, rotate, level;
      this.fs, isOpen, curLines, curSize, openTime := fs, false, 0, 0, Day(0, 0);
      initial := if Active in fs then fs[Active] else [];
      accepted, archive, lastLen := [], [], map[Active := 0];
    }

    /** `Init`: opens what the directory holds. A file within the limits starts a log within the limits. */
    method Init(env: Env) returns (err: Option<LogError>)
      requires Valid() && !isOpen && archive == [] && lastLen == map[Active := 0]
      modifies this`fs, this`isOpen, this`curLines, this`curSize, this`openTime
      ensures Valid() && isOpen == env.openOk && err == if env.openOk then None else Some(OpenFailed)
      ensures fs == if env.openOk then old(fs)[Active := old(Current())] else old(fs)
      ensures err == None && WithinLimits(old(Current()), 0, maxLines, maxSize) ==> Limited()
    {
      err := StartLogger(env);
    }

    /** `startLogger` and `initFd`: the size and the lines of the file just opened are counted afresh. */
    method StartLogger(env: Env) returns (err: Option<LogError>)
      requires Valid() && !isOpen
      modifies this`fs, this`isOpen, this`curLines, this`curSize, this`openTime
      ensures Valid() && isOpen == env.openOk
      ensures err == if env.openOk then None else Some(OpenFailed)
      ensures fs == if env.openOk then old(fs)[Active := old(Current())] else old(fs)
      ensures env.openOk ==> curSize == |fs[Active]| && curLines == Lines(fs[Active]) && openTime == env.now
      ensures !env.openOk ==> curSize == old(curSize) && curLines == old(curLines) && openTime == old(openTime)
    {
      if !env.openOk {
        return Some(OpenFailed);
      }
      OpenConserves(fs, archive, initial, accepted);
      hide Conserved, Recorded, Lines;
      if Active !in fs {
        fs := fs[Active := []];
      }
      assert fs == old(fs)[Active := old(Current())];
      isOpen := true;
      curSize := |fs[Active]|;
      openTime := env.now;
      curLines := 0;
      if |fs[Active]| > 0 {
        curLines := CountLines(fs[Active]);
      }
      return None;
    }

    // ---------- rotation ----------

    predicate NeedRotate(day: nat)
      reads this
    {
      || (maxLines > 0 && curLines >= maxLines)
      || (maxSize > 0 && curSize >= maxSize)
      || (daily && day != openTime.dayOfMonth)
    }

    /** The next free name: dated by the message when a size or line limit is set, else by the opening. */
    method FindName(logDate: nat) returns (name: Name, found: bool)
      ensures name != Active
      ensures found == (name !in fs)
      ensures maxLines > 0 || maxSize > 0 ==> name.Numbered? && name.date == logDate
      ensures maxLines <= 0 && maxSize <= 0 ==> name.date == openTime.date
      ensures name.Numbered? ==> 1 <= name.num <= 999 && forall n :: 1 <= n < name.num ==> Numbered(name.date, n) in fs
      ensures !found ==> name == Numbered(name.date, 999)
    {
      var num := 1;
      var exists_ := true;
      if maxLines > 0 || maxSize > 0 {
        name := Numbered(logDate, 1);
      } else {
        name := Daily(openTime.date);
        exists_ := name in fs;
      }
      var date := name.date;
      while exists_ && num <= MAX_NUMBER
        invariant 1 <= num <= MAX_NUMBER + 1
        invariant name != Active && name.date == date
        invariant forall n :: 1 <= n < num ==> Numbered(date, n) in fs || (name == Numbered(date, n) && n == num - 1)
        invariant num > 1 ==> name == Numbered(date, num - 1)
        invariant exists_ == (name in fs) || (num == 1 && exists_ && (maxLines > 0 || maxSize > 0))
        invariant maxLines > 0 || maxSize > 0 ==> name.Numbered?
        invariant num == 1 && name.Numbered? ==> name == Numbered(date, 1) && exists_
      {
        name := Numbered(date, num);
        exists_ := name in fs;
        num := num + 1;
      }
      found := !exists_;
    }

    // The rename inside `doRotate`, to a name that is free.
    method Rename(name: Name)
      requires Valid() && !isOpen && Active in fs && name !in fs && name != Active
      modifies this`fs, this`archive, this`lastLen
      ensures Valid() && Active !in fs
      ensures archive == old(archive) + [name] && fs == Renamed(old(fs), name)
      ensures lastLen == old(lastLen)[name := old(lastLen)[Active]][Active := 0]
    {
      RenameConserves(fs, archive, initial, accepted, name);
      hide Conserved;
      fs := Renamed(fs, name);
      lastLen := lastLen[name := lastLen[Active]][Active := 0];
      archive := archive + [name];
    }

    // With a limit the name has the date of the message, else that of the opening.
    predicate NamedFor(name: Name, logDate: nat, openedOn: nat) {
      match name
      case Active => false
      case Daily(date) => maxLines <= 0 && maxSize <= 0 && date == openedOn
      case Numbered(date, num) => 1 <= num <= 999 && date == if maxLines > 0 || maxSize > 0 then logDate else openedOn
    }

    /** `doRotate` under the lock. */
    method DoRotate(logDate: nat, env: Env) returns (err: Option<LogError>)
      requires Valid()
      modifies this
      ensures Valid() && initial == old(initial) && accepted == old(accepted)
      // no other file is replaced or changed
      ensures forall n :: n in old(fs) && n != Active ==> n in fs && fs[n] == old(fs)[n]
      // without a free number nothing happens at all
      ensures err == Some(NoFreeNumber) ==>
        fs == old(fs) && isOpen == old(isOpen) && curLines == old(curLines) && curSize == old(curSize)
        && openTime == old(openTime) && archive == old(archive) && lastLen == old(lastLen)
      // otherwise the active file is opened anew, also when it was missing, which is an error all the same
      ensures Active !in old(fs) ==> err == Some(if env.openOk then StatFailed else OpenFailed)
      ensures err != Some(NoFreeNumber) ==>
        isOpen == env.openOk && (env.openOk ==> curLines == Lines(fs[Active]) && openTime == env.now)
      ensures err == None ==> isOpen
      ensures err == Some(RenameFailed) ==> archive == old(archive) && lastLen == old(lastLen) && Current() == old(Current())
      // and empty, its contents being in a file that was not there before
      ensures err == None || err == Some(ChmodFailed) ==>
        Active in old(fs) && |archive| > 0 && var name := archive[|archive| - 1];
        && NamedFor(name, logDate, old(openTime).date) && archive == old(archive) + [name] && name !in old(fs) && name in fs
        && fs[name] == old(fs)[Active] && Current() == []
        && (env.openOk ==> fs == Renamed(old(fs), name)[Active := []])
        && lastLen == old(lastLen)[name := old(lastLen)[Active]][Active := 0]
    {
      hide Conserved, Recorded, Lines;
      if Active !in fs {
        err := StartLogger(env);
        if err == None {
          err := Some(StatFailed);
        }
        return;
      }
      var name, found := FindName(logDate);
      if !found {
        return Some(NoFreeNumber);
      }
      isOpen := false;
      if env.renameOk {
        Rename(name);
        err := StartLogger(env);
        if err == None && !env.chmodOk {
          err := Some(ChmodFailed);
        }
      } else {
        err := StartLogger(env);
        if err == None {
          err := Some(RenameFailed);
        }
      }
    }

    // The active file of `was` is now the latest of the rotated ones.
    ghost predicate Rotated(was: map<Name, bytes>, older: seq<Name>, logDate: nat, openedOn: nat)
      reads this
    {
      && Active in was && Replaced(was, fs, older, archive)
      && NamedFor(archive[|archive| - 1], logDate, openedOn) && archive[|archive| - 1] !in was
    }

    // The active file has been rotated away for this message, and an empty one opened.
    ghost predicate Renewed(was: map<Name, bytes>, older: seq<Name>, when: Day, openedOn: Day, env: Env)
      reads this
    {
      Rotated(was, older, when.date, openedOn.date) && Current() == [] && isOpen && openTime == env.now
    }

    // One more message fits under the limits.
    ghost predicate Room()
      reads this
    {
      (maxLines > 0 ==> curLines < maxLines) && (maxSize > 0 ==> curSize < maxSize)
    }

    /** The first half of `WriteMsg`, and the body of `dailyRotate`, each under the lock. */
    method RotateIfNeeded(when: Day, env: Env) returns (err: Option<LogError>)
      requires Valid()
      modifies this
      ensures Valid() && initial == old(initial) && accepted == old(accepted)
      ensures forall n :: n in old(fs) && n != Active ==> n in fs && fs[n] == old(fs)[n]
      // the same day of the month, and below both limits: nothing happens
      ensures
        || (daily && when.dayOfMonth != old(openTime).dayOfMonth)
        || (maxLines > 0 && old(curLines) >= maxLines)
        || (maxSize > 0 && old(curSize) >= maxSize)
        || (err == None && fs == old(fs) && archive == old(archive) && isOpen == old(isOpen) && openTime == old(openTime)
            && curLines == old(curLines) && curSize == old(curSize))
      // another day, or a limit reached: a new file, or an error
      ensures daily && when.dayOfMonth != old(openTime).dayOfMonth ==>
        err != None || Renewed(old(fs), old(archive), when, old(openTime), env)
      ensures maxLines > 0 && old(curLines) >= maxLines ==>
        err != None || Renewed(old(fs), old(archive), when, old(openTime), env)
      ensures maxSize > 0 && old(curSize) >= maxSize ==>
        err != None || Renewed(old(fs), old(archive), when, old(openTime), env)
      ensures old(Limited()) && err == None ==> Limited() && Room()
    {
      err := None;
      hide Conserved, Recorded, FilesLimited, Renamed;
      if NeedRotate(when.dayOfMonth) {
        ghost var limited := Limited();
        err := DoRotate(when.date, env);
        if limited && err == None {
          RotateLimited(old(fs), old(archive), old(lastLen), maxLines, maxSize, archive[|archive| - 1]);
        }
      }
    }

    /** The second half of `WriteMsg`: a line is appended to the open file and counted. */
    method Append(line: bytes, writeOk: bool) returns (err: Option<LogError>)
      requires Valid()
      modifies this`fs, this`curLines, this`curSize, this`accepted, this`lastLen
      ensures Valid()
      ensures if isOpen && writeOk
              then err == None && isOpen && accepted == old(accepted) + [line] && fs == old(fs)[Active := old(fs)[Active] + line]
                   && curLines == old(curLines) + 1 && lastLen == old(lastLen)[Active := |line|]
              else err == Some(WriteFailed) && accepted == old(accepted) && fs == old(fs)
                   && curLines == old(curLines) && curSize == old(curSize) && lastLen == old(lastLen)
      ensures old(Limited() && Room()) && Lines(line) == 1 ==> Limited()
    {
      if !isOpen || !writeOk {
        return Some(WriteFailed);
      }
      AppendConserves(fs, archive, initial, accepted, line);
      if Limited() && Room() && Lines(line) == 1 {
        AppendLimited(fs, archive, lastLen, maxLines, maxSize, line);
      }
      LinesConcat(fs[Active], line);
      hide Conserved, FilesLimited, Lines;
      fs := fs[Active := fs[Active] + line];
      accepted := accepted + [line];
      curLines := curLines + 1;
      curSize := curSize + |line|;
      lastLen := lastLen[Active := |line|];
      return None;
    }

    // As Renewed, with a first line in the new file.
    ghost predicate Begun(was: map<Name, bytes>, older: seq<Name>, when: Day, openedOn: Day, env: Env, line: bytes)
      reads this
    {
      Rotated(was, older, when.date, openedOn.date) && Current() == line && isOpen && openTime == env.now
    }

    // What `WriteMsg` does with the finished line.
    method WriteLine(when: Day, line: bytes, env: Env, writeOk: bool)
      returns (err: Option<LogError>, rotateErr: Option<LogError>)
      requires Valid()
      modifies this
      ensures Valid() && initial == old(initial)
      ensures accepted == if err == None then old(accepted) + [line] else old(accepted)
      ensures forall n :: n in old(fs) && n != Active ==> n in fs && fs[n] == old(fs)[n]
      ensures err == None <==> isOpen && writeOk
      // no rotation, no new day and both limits not reached: the line goes to the end of the current file
      ensures
        || (rotate && daily && when.dayOfMonth != old(openTime).dayOfMonth)
        || (rotate && maxLines > 0 && old(curLines) >= maxLines)
        || (rotate && maxSize > 0 && old(curSize) >= maxSize)
        || (rotateErr == None && archive == old(archive) && isOpen == old(isOpen) && openTime == old(openTime)
            && Current() == old(Current()) + if err == None then line else [])
      // another day, or a limit reached: it begins a new file, or an error is reported
      ensures rotate && daily && when.dayOfMonth != old(openTime).dayOfMonth ==>
        rotateErr != None || Begun(old(fs), old(archive), when, old(openTime), env, if err == None then line else [])
      ensures rotate && maxLines > 0 && old(curLines) >= maxLines ==>
        rotateErr != None || Begun(old(fs), old(archive), when, old(openTime), env, if err == None then line else [])
      ensures rotate && maxSize > 0 && old(curSize) >= maxSize ==>
        rotateErr != None || Begun(old(fs), old(archive), when, old(openTime), env, if err == None then line else [])
      ensures old(Limited()) && rotate && rotateErr == None && Lines(line) == 1 ==> Limited()
    {
      hide Conserved, Recorded, FilesLimited, Lines;
      rotateErr := None;
      if rotate {
        rotateErr := RotateIfNeeded(when, env);
      }
      err := Append(line, writeOk);
    }

    /** `WriteMsg` of one writer. A failed rotation is reported elsewhere and does not stop the message. */
    method WriteMsg(when: Day, header: bytes, msg: bytes, msgLevel: int, env: Env, writeOk: bool)
      returns (err: Option<LogError>, rotateErr: Option<LogError>)
      requires Valid()
      modifies this
      ensures Valid() && initial == old(initial)
      ensures accepted == if msgLevel <= level && err == None then old(accepted) + [header + msg + [NEWLINE]] else old(accepted)
      ensures msgLevel > level ==> fs == old(fs)
      ensures forall n :: n in old(fs) && n != Active ==> n in fs && fs[n] == old(fs)[n]
      ensures msgLevel > level ==>
        archive == old(archive) && isOpen == old(isOpen) && openTime == old(openTime) && rotateErr == None
      ensures msgLevel <= level ==> (err == None <==> isOpen && writeOk)
      // no rotation, no new day and both limits not reached: the line goes to the end of the current file
      ensures
        || msgLevel > level
        || (rotate && daily && when.dayOfMonth != old(openTime).dayOfMonth)
        || (rotate && maxLines > 0 && old(curLines) >= maxLines)
        || (rotate && maxSize > 0 && old(curSize) >= maxSize)
        || (rotateErr == None && archive == old(archive) && isOpen == old(isOpen) && openTime == old(openTime)
            && Current() == old(Current()) + if err == None then header + msg + [NEWLINE] else [])
      // another day, or a limit reached: it begins a new file, or an error is reported
      ensures msgLevel <= level && rotate && daily && when.dayOfMonth != old(openTime).dayOfMonth ==>
        rotateErr != None || Begun(old(fs), old(archive), when, old(openTime), env,
                                if err == None then header + msg + [NEWLINE] else [])
      ensures msgLevel <= level && rotate && maxLines > 0 && old(curLines) >= maxLines ==>
        rotateErr != None || Begun(old(fs), old(archive), when, old(openTime), env,
                                if err == None then header + msg + [NEWLINE] else [])
      ensures msgLevel <= level && rotate && maxSize > 0 && old(curSize) >= maxSize ==>
        rotateErr != None || Begun(old(fs), old(archive), when, old(openTime), env,
                                if err == None then header + msg + [NEWLINE] else [])
      ensures old(Limited()) && rotate && rotateErr == None && Lines(header + msg) == 0 ==> Limited()
    {
      if msgLevel > level {
        return None, None;
      }
      LinesConcat(header + msg, [NEWLINE]);
      assert [NEWLINE][1..] == [];
      assert Lines([NEWLINE]) == 1;
      hide Conserved, Recorded, FilesLimited, Lines, Rotated;
      err, rotateErr := WriteLine(when, header + msg + [NEWLINE], env, writeOk);
    }

    // What the files hold of a run that began with `before` in the active file and `base` rotated files.
    ghost predicate Holds(files: seq<DayFile>, base: nat, before: bytes)
      reads this
    {
      isOpen && HoldsIn(fs, archive, openTime.dayOfMonth, files, base, before)
    }

    // One event of the run.
    method LogOne(e: Event) returns (rotateErr: Option<LogError>)
      requires Valid()
      modifies this
      ensures Valid()
      ensures old(Limited()) && rotate && SingleLine(e) && rotateErr == None ==> Limited()
      ensures old(isOpen) && rotate && daily && maxLines <= 0 && maxSize <= 0 && rotateErr == None ==>
        isOpen && ArchiveSame(old(fs), fs, old(archive)) &&
        if (e.Message? && e.level > level) || e.when.dayOfMonth == old(openTime).dayOfMonth
        then archive == old(archive) && openTime == old(openTime) && Current() == old(Current()) + Text(LineOf(e, level))
        else openTime == e.env.now && Current() == Text(LineOf(e, level)) && Replaced(old(fs), fs, old(archive), archive)
    {
      ArchiveNames();
      TextOfLine(e);
      hide Conserved, Recorded, FilesLimited, Lines, NamedFor, Renamed, Text, LineOf, ActiveOf, ArchiveSame, Replaced;
      match e {
        case Message(when, header, msg, msgLevel, env, writeOk) =>
          var err;
          err, rotateErr := WriteMsg(when, header, msg, msgLevel, env, writeOk);
        case NewDay(when, env) =>
          rotateErr := RotateIfNeeded(when, env);
      }
      hide Rotated;
      ArchiveUnchanged(old(fs), fs, old(archive));
    }

    lemma TextOfLine(e: Event)
      ensures Text(LineOf(e, level))
           == if e.Message? && e.level <= level && e.writeOk then e.header + e.msg + [NEWLINE] else []
    {
      var line := LineOf(e, level);
      if line != [] {
        assert line[..0] == [];
        assert Text(line) == [] + line[0].line;
        assert [] + line[0].line == line[0].line;
      }
    }

    lemma ArchiveNames()
      requires Valid()
      ensures forall k :: 0 <= k < |archive| ==> archive[k] in fs && archive[k] != Active
    {
    }

    /**
     Any sequence of single-line messages and day changes, one at a time: as long as no rotation reports an
     error, no file ever exceeds the limits. Without limits the files are the messages in groups, a group
     ending where the day of the month changes (see FiledOneDay).
     */
    method LogAll(events: seq<Event>) returns (errs: seq<Option<LogError>>)
      requires Valid()
      modifies this
      ensures Valid() && |errs| == |events|
      ensures old(Limited()) && rotate && (forall k :: 0 <= k < |events| ==> SingleLine(events[k]) && errs[k] == None)
          ==> Limited()
      ensures old(isOpen) && rotate && daily && maxLines <= 0 && maxSize <= 0
              && (forall k :: 0 <= k < |events| ==> errs[k] == None)
          ==> Holds(FiledAll([DayFile(old(openTime).dayOfMonth, [])], events, level), |old(archive)|, old(Current()))
    {
      errs := [];
      hide Conserved, Recorded, FilesLimited, Lines, HoldsIn, Filed, LineOf, Text, ArchiveSame, Replaced;
      ghost var first, base, before := [DayFile(openTime.dayOfMonth, [])], |archive|, Current();
      assert events[..0] == [];
      HoldsFirst(fs, archive, openTime.dayOfMonth);
      for n := 0 to |events|
        invariant Valid() && |errs| == n
        invariant old(Limited()) && rotate && (forall k :: 0 <= k < n ==> SingleLine(events[k]) && errs[k] == None)
          ==> Limited()
        invariant old(isOpen) && rotate && daily && maxLines <= 0 && maxSize <= 0 && (forall k :: 0 <= k < n ==> errs[k] == None)
          ==> Holds(FiledAll(first, events[..n], level), base, before)
      {
        assert events[..n + 1][..n] == events[..n];
        assert FiledAll(first, events[..n + 1], level) == Filed(FiledAll(first, events[..n], level), events[n], level);
        ghost var fs0, archive0, day, files := fs, archive, openTime.dayOfMonth, FiledAll(first, events[..n], level);
        ghost var held := Holds(files, base, before) && rotate && daily && maxLines <= 0 && maxSize <= 0;
        var rotateErr := LogOne(events[n]);
        if held && rotateErr == None {
          HoldsNext(fs0, fs, archive0, archive, day, openTime.dayOfMonth, files, base, before, events[n], level);
        }
        ghost var was := errs;
        errs := errs + [rotateErr];
        assert forall k :: 0 <= k < n ==> errs[k] == was[k];
        assert errs[n] == rotateErr;
      }
      assert events[..|events|] == events;
    }

    static predicate SingleLine(e: Event) {
      e.Message? ==> Lines(e.header + e.msg) == 0
    }

    /**
     Any interleaving of the pieces that writers and the daily rotation run under the lock. Whatever
     fails on the way, the rotated files in order and the current file together hold the initial
     content and every line whose write succeeded, in order.
     */
    method RunAll(ops: seq<Op>) returns (written: seq<bytes>)
      requires Valid()
      modifies this
      ensures Valid() && initial == old(initial) && accepted == old(accepted) + written
      ensures Contents(fs, archive) + Current() == initial + Concat(old(accepted) + written)
      ensures forall n :: n in old(fs) && n != Active ==> n in fs && fs[n] == old(fs)[n]
    {
      written := [];
      for k := 0 to |ops|
        invariant Valid() && initial == old(initial) && accepted == old(accepted) + written
        invariant forall n :: n in old(fs) && n != Active ==> n in fs && fs[n] == old(fs)[n]
      {
        match ops[k] {
          case Rotate(when, env) =>
            var err := RotateIfNeeded(when, env);
          case Put(line, writeOk) =>
            var err := Append(line, writeOk);
            if err == None {
              written := written + [line];
            }
        }
      }
    }
  }

  // ---------- rotation by day ----------

  // A line with the day of the month of its message.
  datatype Stamped = Stamped(day: nat, line: bytes)

  // A file of the log: the day of the month on which it was opened, and the lines written to it.
  datatype DayFile = DayFile(openedOn: nat, lines: seq<Stamped>)

  function Text(lines: seq<Stamped>): bytes {
    if lines == [] then [] else Text(lines[..|lines| - 1]) + lines[|lines| - 1].line
  }

  // The line an event adds to its file.
  function LineOf(e: Event, level: int): (r: seq<Stamped>)
    ensures |r| <= 1
  {
    if e.Message? && e.level <= level && e.writeOk then [Stamped(e.when.dayOfMonth, e.header + e.msg + [NEWLINE])] else []
  }

  lemma AboveLevel(e: Event, level: int)
    requires e.Message? && e.level > level
    ensures LineOf(e, level) == []
  {
  }

  /** The next event goes to the last file, or to a new one when its day of the month is another. */
  function Filed(files: seq<DayFile>, e: Event, level: int): (r: seq<DayFile>)
    requires files != []
    ensures r != []
  {
    var last, line := files[|files| - 1], LineOf(e, level);
    if e.Message? && e.level > level then files
    else if e.when.dayOfMonth == last.openedOn then WithLine(files, line)
    else files + [DayFile(e.env.now.dayOfMonth, line)]
  }

  function FiledAll(files: seq<DayFile>, events: seq<Event>, level: int): (r: seq<DayFile>)
    requires files != []
    ensures r != []
  {
    if events == [] then files else Filed(FiledAll(files, events[..|events| - 1], level), events[|events| - 1], level)
  }

  /** Every file has only lines of the day it was opened on, and the next file is of another day. */
  ghost predicate OneDayEach(files: seq<DayFile>) {
    && (forall k, l :: 0 <= k < |files| && l in files[k].lines ==> l.day == files[k].openedOn)
    && (forall k :: 0 <= k < |files| - 1 ==> files[k].openedOn != files[k + 1].openedOn)
  }

  /**
   Where files are opened on the day of the message that needs them, every file holds only lines of the day
   of the month on which it was opened, and there is no rotation between two messages of one day.
   */
  lemma {:induction false} FiledOneDay(first: nat, events: seq<Event>, level: int)
    requires forall k :: 0 <= k < |events| ==> events[k].env.now.dayOfMonth == events[k].when.dayOfMonth
    ensures OneDayEach(FiledAll([DayFile(first, [])], events, level))
    decreases |events|
  {
    if events != [] {
      var files := FiledAll([DayFile(first, [])], events[..|events| - 1], level);
      FiledOneDay(first, events[..|events| - 1], level);
      FiledStep(files, events[|events| - 1], level);
      hide OneDayEach, Filed;
    }
  }

  /** Only the day of the month counts: messages of two dates that share it, a month apart say, are in one file. */
  lemma MonthLater(e: Event, f: Event, level: int)
    requires e.when.date != f.when.date && e.when.dayOfMonth == f.when.dayOfMonth
    ensures FiledAll([DayFile(e.when.dayOfMonth, [])], [e, f], level)
         == [DayFile(e.when.dayOfMonth, LineOf(e, level) + LineOf(f, level))]
  {
    var day := e.when.dayOfMonth;
    var first := [DayFile(day, [])];
    assert [e, f][..1] == [e] && [e][..0] == [];
    assert [] + LineOf(e, level) == LineOf(e, level);
    assert first[..0] == [];
    assert Filed(first, e, level) == [DayFile(day, LineOf(e, level))];
    assert FiledAll(first, [e], level) == Filed(FiledAll(first, [], level), e, level);
    assert FiledAll(first, [e, f], level) == Filed(FiledAll(first, [e], level), f, level);
    assert LineOf(e, level) + [] == LineOf(e, level);
    assert [DayFile(day, LineOf(e, level))][..0] == [];
  }

  lemma FiledStep(files: seq<DayFile>, e: Event, level: int)
    requires files != [] && OneDayEach(files) && e.env.now.dayOfMonth == e.when.dayOfMonth
    ensures OneDayEach(Filed(files, e, level))
  {
  }

  // The first file of a run begins with what the active file held.
  function StartOf(k: nat, before: bytes): bytes {
    if k == 0 then before else []
  }

  // The rotated files from number `base` on hold the lines of the first n of `files`.
  ghost predicate ArchiveHolds(fs: map<Name, bytes>, archive: seq<Name>, files: seq<DayFile>, n: nat, base: nat, before: bytes) {
    && n <= |files| && base + n <= |archive|
    && forall k :: 0 <= k < n ==>
         archive[base + k] in fs && fs[archive[base + k]] == StartOf(k, before) + Text(files[k].lines)
  }

  // The active file holds the lines of the last of `files`.
  ghost predicate ActiveHolds(current: bytes, day: nat, files: seq<DayFile>, before: bytes) {
    files != [] && day == files[|files| - 1].openedOn && current == StartOf(|files| - 1, before) + Text(files[|files| - 1].lines)
  }

  ghost predicate HoldsIn(fs: map<Name, bytes>, archive: seq<Name>, day: nat, files: seq<DayFile>, base: nat, before: bytes) {
    && ActiveHolds(ActiveOf(fs), day, files, before)
    && |archive| == base + |files| - 1 && ArchiveHolds(fs, archive, files, |files| - 1, base, before)
  }

  // The files with one more line in the last of them.
  function WithLine(files: seq<DayFile>, line: seq<Stamped>): (r: seq<DayFile>)
    requires files != []
    ensures |r| == |files|
  {
    var last := files[|files| - 1];
    files[..|files| - 1] + [DayFile(last.openedOn, last.lines + line)]
  }

  lemma TextMore(lines: seq<Stamped>, line: seq<Stamped>)
    requires |line| <= 1
    ensures Text(lines + line) == Text(lines) + Text(line)
  {
    if line == [] {
      assert lines + line == lines;
    } else {
      assert (lines + line)[..|lines|] == lines;
      assert line[..0] == [];
      assert Text(line) == [] + line[0].line;
      assert [] + line[0].line == line[0].line;
    }
  }

  // No rotated file has changed.
  ghost predicate ArchiveSame(fs: map<Name, bytes>, fs': map<Name, bytes>, archive: seq<Name>) {
    forall k :: 0 <= k < |archive| ==> archive[k] in fs && archive[k] in fs' && fs'[archive[k]] == fs[archive[k]]
  }

  lemma ArchiveUnchanged(fs: map<Name, bytes>, fs': map<Name, bytes>, archive: seq<Name>)
    requires forall k :: 0 <= k < |archive| ==> archive[k] in fs && archive[k] != Active
    requires forall n :: n in fs && n != Active ==> n in fs' && fs'[n] == fs[n]
    ensures ArchiveSame(fs, fs', archive)
  {
  }

  // The active file has become the last of the rotated ones.
  ghost predicate Replaced(fs: map<Name, bytes>, fs': map<Name, bytes>, archive: seq<Name>, archive': seq<Name>) {
    && |archive'| > 0 && archive'[..|archive'| - 1] == archive
    && archive'[|archive'| - 1] in fs' && fs'[archive'[|archive'| - 1]] == ActiveOf(fs)
  }

  lemma ArchiveHoldsStill(fs: map<Name, bytes>, fs': map<Name, bytes>, archive: seq<Name>,
                          files: seq<DayFile>, files': seq<DayFile>, n: nat, base: nat, before: bytes)
    requires ArchiveHolds(fs, archive, files, n, base, before) && ArchiveSame(fs, fs', archive)
    requires n <= |files'| && files'[..n] == files[..n]
    ensures ArchiveHolds(fs', archive, files', n, base, before)
  {
    hide Text;
    assert forall k :: 0 <= k < n ==> files'[k] == files'[..n][k] == files[k];
  }

  lemma ActiveMore(current: bytes, day: nat, files: seq<DayFile>, before: bytes, line: seq<Stamped>)
    requires ActiveHolds(current, day, files, before) && |line| <= 1
    ensures ActiveHolds(current + Text(line), day, WithLine(files, line), before)
  {
    var last := files[|files| - 1].lines;
    TextMore(last, line);
    hide Text, StartOf;
    ConcatAssoc(StartOf(|files| - 1, before), Text(last), Text(line));
  }

  lemma NoLine(files: seq<DayFile>)
    requires files != []
    ensures WithLine(files, []) == files
  {
    var last := files[|files| - 1];
    assert last.lines + [] == last.lines;
    assert files[..|files| - 1] + [last] == files;
  }

  lemma RestSame(files: seq<DayFile>, line: seq<Stamped>)
    requires files != []
    ensures WithLine(files, line)[..|files| - 1] == files[..|files| - 1]
  {
  }

  lemma HoldsMore(fs: map<Name, bytes>, fs': map<Name, bytes>, archive: seq<Name>, day: nat, files: seq<DayFile>, base: nat,
                  before: bytes, line: seq<Stamped>)
    requires HoldsIn(fs, archive, day, files, base, before) && |line| <= 1 && ArchiveSame(fs, fs', archive)
    requires ActiveOf(fs') == ActiveOf(fs) + Text(line)
    ensures files != [] && HoldsIn(fs', archive, day, WithLine(files, line), base, before)
  {
    assert files != [];
    hide Text, ActiveOf, ArchiveSame, ArchiveHolds, ActiveHolds, WithLine;
    RestSame(files, line);
    ArchiveHoldsStill(fs, fs', archive, files, WithLine(files, line), |files| - 1, base, before);
    ActiveMore(ActiveOf(fs), day, files, before, line);
  }

  lemma HoldsNew(fs: map<Name, bytes>, fs': map<Name, bytes>, archive: seq<Name>, archive': seq<Name>, day: nat, day': nat,
                 files: seq<DayFile>, base: nat, before: bytes, line: seq<Stamped>)
    requires HoldsIn(fs, archive, day, files, base, before) && ArchiveSame(fs, fs', archive)
    requires Replaced(fs, fs', archive, archive') && ActiveOf(fs') == Text(line)
    ensures HoldsIn(fs', archive', day', files + [DayFile(day', line)], base, before)
  {
    hide Text, ActiveOf;
    assert forall k :: 0 <= k < |archive| ==> archive'[k] == archive[k];
    assert [] + Text(line) == Text(line);
  }

  lemma DayOfLast(fs: map<Name, bytes>, archive: seq<Name>, day: nat, files: seq<DayFile>, base: nat, before: bytes)
    requires HoldsIn(fs, archive, day, files, base, before)
    ensures files != [] && day == files[|files| - 1].openedOn
  {
  }

  lemma HoldsNext(fs: map<Name, bytes>, fs': map<Name, bytes>, archive: seq<Name>, archive': seq<Name>, day: nat, day': nat,
                  files: seq<DayFile>, base: nat, before: bytes, e: Event, level: int)
    requires HoldsIn(fs, archive, day, files, base, before) && ArchiveSame(fs, fs', archive)
    requires
      var text := Text(LineOf(e, level));
      if (e.Message? && e.level > level) || e.when.dayOfMonth == day
      then archive' == archive && day' == day && ActiveOf(fs') == ActiveOf(fs) + text
      else day' == e.env.now.dayOfMonth && ActiveOf(fs') == text && Replaced(fs, fs', archive, archive')
    ensures HoldsIn(fs', archive', day', Filed(files, e, level), base, before)
  {
    var last, line := files[|files| - 1], LineOf(e, level);
    DayOfLast(fs, archive, day, files, base, before);
    hide Text, ActiveOf, ArchiveSame, Replaced, HoldsIn, LineOf, WithLine;
    if (e.Message? && e.level > level) || e.when.dayOfMonth == day {
      HoldsMore(fs, fs', archive, day, files, base, before, line);
      if e.Message? && e.level > level {
        AboveLevel(e, level);
        NoLine(files);
      }
    } else {
      HoldsNew(fs, fs', archive, archive', day, day', files, base, before, line);
    }
  }

  lemma HoldsFirst(fs: map<Name, bytes>, archive: seq<Name>, day: nat)
    ensures HoldsIn(fs, archive, day, [DayFile(day, [])], |archive|, ActiveOf(fs))
  {
    assert ActiveOf(fs) + [] == ActiveOf(fs);
  }

  datatype Event =
    | Message(when: Day, header: bytes, msg: bytes, level: int, env: Env, writeOk: bool)
    | NewDay(when: Day, env: Env)

  datatype Op = Rotate(when: Day, env: Env) | Put(line: bytes, writeOk: bool)
}
