/**
 The escape-sequence filter `ansiColorWriter.Write` of `internal/logs/color_windows.go`, against a
 reference that reads its input as text and whole sequences.
 */
module AnsiWriter {
  import opened Basics
  import opened AnsiColor

  const ESC: char := '\U{1b}'

  datatype Mode = DiscardNonColorEscSeq | OutputNonColorEscSeq

  datatype CsiState = OutsideCsiCode | FirstCsiCode | SecondCsiCode

  // `attr` is the console's current attribute, None when it cannot be read; `initial` the attribute
  // read at start-up, from which `defaultAttr` was made. When it is not `settable`, setting the attribute
  // fails, which the original does not look at.
  datatype Console = Console(initial: Option<bv16>, attr: Option<bv16>, settable: bool)

  datatype ParseResult = NoConsole | ChangedColor | Unknown

  predicate IsParameterChar(b: char) {
    '0' <= b <= '9' || b == ';'
  }

  function ParseEscapeSequence(c: Console, command: char, params: string): (ParseResult, Console) {
    if c.initial.None? then (NoConsole, c)
    else if command != 'm' then (Unknown, c)
    else if c.attr.None? then (NoConsole, c)
    else if !c.settable then (ChangedColor, c)
    else (ChangedColor, c.(attr := Some(ChangedAttr(c.attr.value, params, c.initial.value))))
  }

  // ---------- the reference ----------

  datatype Item = Text(b: char) | Sequence(params: string, final: char)

  predicate ItemOk(item: Item) {
    match item
    case Text(b) => b != ESC
    case Sequence(params, final) =>
      !IsParameterChar(final) && forall k :: 0 <= k < |params| ==> IsParameterChar(params[k])
  }

  function Show(item: Item): string {
    match item
    case Text(b) => [b]
    case Sequence(params, final) => [ESC, '['] + params + [final]
  }

  function ShowAll(items: seq<Item>): string {
    if items == [] then "" else Show(items[0]) + ShowAll(items[1..])
  }

  // A sequence is passed on when there is no console, or as unknown in the mode that keeps those.
  predicate Kept(mode: Mode, r: ParseResult) {
    r == NoConsole || (mode == OutputNonColorEscSeq && r == Unknown)
  }

  /** Text passes; a sequence is kept or dropped as a whole, and an SGR sequence sets the attribute. */
  function Reference(mode: Mode, c: Console, items: seq<Item>): (string, Console)
    decreases |items|
  {
    if items == [] then ("", c)
    else
      match items[0]
      case Text(b) =>
        var (out, c') := Reference(mode, c, items[1..]);
        ([b] + out, c')
      case Sequence(params, final) =>
        var (r, c1) := ParseEscapeSequence(c, final, params);
        var (out, c') := Reference(mode, c1, items[1..]);
        ((if Kept(mode, r) then Show(items[0]) else "") + out, c')
  }

  // A byte that may stand between '[' and the final byte: a digit or ';'.
  lemma ParameterBytes(b: char)
    ensures IsParameterChar(b) <==> b == ';' || b in {'0', '1', '2', '3', '4', '5', '6', '7', '8', '9'}
  {
  }

  /**
   What becomes of one sequence, case by case. Without a console at start-up it is passed on; with the final
   byte 'm' it is dropped and the attribute set, where the console can be read and lets itself be set; with any
   other final byte it is passed on or dropped as the mode says, and changes nothing.
   */
  lemma SequenceOutcome(mode: Mode, c: Console, params: string, final: char)
    ensures var (out, after) := Reference(mode, c, [Sequence(params, final)]);
      var whole := [ESC, '['] + params + [final];
      && (c.initial == None ==> out == whole && after == c)
      && (c.initial.Some? && final != 'm' ==> out == (if mode == OutputNonColorEscSeq then whole else "") && after == c)
      && (c.initial.Some? && final == 'm' && c.attr == None ==> out == whole && after == c)
      && (c.initial.Some? && final == 'm' && c.attr.Some? ==>
            && out == "" && after.initial == c.initial && after.settable == c.settable
            && after.attr == if c.settable then Some(ChangedAttr(c.attr.value, params, c.initial.value)) else c.attr)
  {
    hide ChangedAttr;
    assert [Sequence(params, final)][1..] == [];
    assert ([ESC, '['] + params + [final]) + "" == [ESC, '['] + params + [final];
  }

  /** Items are taken one after the other, and text passes as it is. */
  lemma {:induction false} ReferenceConcat(mode: Mode, c: Console, a: seq<Item>, b: seq<Item>)
    ensures var (out, c1) := Reference(mode, c, a);
      var (more, c2) := Reference(mode, c1, b);
      Reference(mode, c, a + b) == (out + more, c2)
    decreases |a|
  {
    hide ParseEscapeSequence, Kept;
    if a == [] {
      assert a + b == b;
      assert "" + Reference(mode, c, b).0 == Reference(mode, c, b).0;
    } else {
      assert (a + b)[1..] == a[1..] + b;
      match a[0]
      case Text(ch) =>
        ReferenceConcat(mode, c, a[1..], b);
        var (out, c1) := Reference(mode, c, a[1..]);
        ConcatAssoc([ch], out, Reference(mode, c1, b).0);
      case Sequence(params, final) =>
        var (r, c0) := ParseEscapeSequence(c, final, params);
        ReferenceConcat(mode, c0, a[1..], b);
        var (out, c1) := Reference(mode, c0, a[1..]);
        ConcatAssoc(if Kept(mode, r) then Show(a[0]) else "", out, Reference(mode, c1, b).0);
    }
  }

  lemma TextPasses(mode: Mode, c: Console, b: char)
    ensures Reference(mode, c, [Text(b)]) == ([b], c)
  {
    assert [Text(b)][1..] == [];
    assert [b] + "" == [b];
  }

  // ---------- one byte at a time ----------

  // What has come out, the open sequence and the console.
  datatype Filter = Filter(state: CsiState, start: string, params: string, out: string, console: Console)

  function Finish(mode: Mode, f: Filter, b: char): Filter {
    var (r, c) := ParseEscapeSequence(f.console, b, f.params);
    Filter(OutsideCsiCode, "", "", if Kept(mode, r) then f.out + f.start + f.params + [b] else f.out, c)
  }

  /** The effect of one more byte, text being passed on at once. */
  function Feed(mode: Mode, f: Filter, b: char): Filter {
    match f.state
    case OutsideCsiCode =>
      if b == ESC then f.(state := FirstCsiCode, start := f.start + [b]) else f.(out := f.out + [b])
    case FirstCsiCode => f.(state := SecondCsiCode, start := f.start + [b])
    case SecondCsiCode => if IsParameterChar(b) then f.(params := f.params + [b]) else Finish(mode, f, b)
  }

  function FeedAll(mode: Mode, f: Filter, p: string): Filter
    decreases |p|
  {
    if p == "" then f else FeedAll(mode, Feed(mode, f, p[0]), p[1..])
  }

  /** Every ESC is followed by '[': the inputs that are text and sequences, the last one perhaps open. */
  predicate Regular(mode: Mode, f: Filter, p: string)
    decreases |p|
  {
    p == "" || ((f.state == FirstCsiCode ==> p[0] == '[') && Regular(mode, Feed(mode, f, p[0]), p[1..]))
  }

  lemma {:induction false} FeedConcat(mode: Mode, f: Filter, p: string, q: string)
    ensures FeedAll(mode, f, p + q) == FeedAll(mode, FeedAll(mode, f, p), q)
    ensures Regular(mode, f, p + q) <==> Regular(mode, f, p) && Regular(mode, FeedAll(mode, f, p), q)
    decreases |p|
  {
    hide Feed;
    if p == "" {
      assert p + q == q;
    } else {
      assert (p + q)[1..] == p[1..] + q;
      FeedConcat(mode, Feed(mode, f, p[0]), p[1..], q);
    }
  }

  lemma {:induction false} FeedParams(mode: Mode, f: Filter, params: string, final: char)
    requires f.state == SecondCsiCode && ItemOk(Sequence(params, final))
    ensures Regular(mode, f, params + [final])
    ensures FeedAll(mode, f, params + [final]) == Finish(mode, f.(params := f.params + params), final)
    decreases |params|
  {
    var p := params + [final];
    if params == "" {
      assert p == [final] && p[1..] == "";
      assert f.params + params == f.params;
    } else {
      assert p[1..] == params[1..] + [final];
      FeedParams(mode, f.(params := f.params + [params[0]]), params[1..], final);
      assert f.params + [params[0]] + params[1..] == f.params + params;
    }
  }

  lemma FeedAt(mode: Mode, f: Filter, p: string, i: nat)
    requires i <= |p|
    ensures i == |p| ==> FeedAll(mode, f, p[i..]) == f
    ensures i < |p| ==> FeedAll(mode, f, p[i..]) == FeedAll(mode, Feed(mode, f, p[i]), p[i + 1..])
    ensures i < |p| && Regular(mode, f, p[i..]) ==>
      (f.state == FirstCsiCode ==> p[i] == '[') && Regular(mode, Feed(mode, f, p[i]), p[i + 1..])
  {
    hide Feed;
    if i < |p| {
      assert p[i..][0] == p[i] && p[i..][1..] == p[i + 1..];
    } else {
      assert p[i..] == "";
    }
  }

  predicate Idle(f: Filter) {
    f.state == OutsideCsiCode && f.start == "" && f.params == ""
  }

  lemma FeedSequence(mode: Mode, f: Filter, item: Item)
    requires Idle(f) && item.Sequence? && ItemOk(item)
    ensures Regular(mode, f, Show(item))
    ensures var (r, c) := ParseEscapeSequence(f.console, item.final, item.params);
      FeedAll(mode, f, Show(item)) == f.(out := if Kept(mode, r) then f.out + Show(item) else f.out, console := c)
  {
    var tail := item.params + [item.final];
    var f2 := f.(state := SecondCsiCode, start := [ESC, '[']);
    FeedOpening(mode, f, tail);
    FeedParams(mode, f2, item.params, item.final);
    hide Feed, FeedAll, Regular;
    assert Show(item) == [ESC, '['] + tail;
    assert "" + item.params == item.params;
    ConcatAssoc(f.out + [ESC, '['], item.params, [item.final]);
    ConcatAssoc(f.out, [ESC, '['], tail);
  }

  lemma FeedOpening(mode: Mode, f: Filter, tail: string)
    requires Idle(f)
    ensures var f2 := f.(state := SecondCsiCode, start := [ESC, '[']);
      && FeedAll(mode, f, [ESC, '['] + tail) == FeedAll(mode, f2, tail)
      && (Regular(mode, f, [ESC, '['] + tail) <==> Regular(mode, f2, tail))
  {
    var p := [ESC, '['] + tail;
    assert p[1..] == ['['] + tail && p[1..][1..] == tail;
    assert Feed(mode, Feed(mode, f, ESC), '[').start == [ESC, '['];
  }

  /** Byte by byte, the filter computes the reference. */
  lemma {:induction false} FeedIsReference(mode: Mode, f: Filter, items: seq<Item>)
    requires Idle(f) && forall k :: 0 <= k < |items| ==> ItemOk(items[k])
    ensures Regular(mode, f, ShowAll(items))
    ensures var (out, c) := Reference(mode, f.console, items);
      FeedAll(mode, f, ShowAll(items)) == f.(out := f.out + out, console := c)
    decreases |items|
  {
    if items == [] {
      assert f.out + "" == f.out;
    } else {
      var rest := items[1..];
      FeedConcat(mode, f, Show(items[0]), ShowAll(rest));
      match items[0]
      case Text(b) =>
        assert [b][1..] == "";
        var g := f.(out := f.out + [b]);
        FeedIsReference(mode, g, rest);
        ConcatAssoc(f.out, [b], Reference(mode, f.console, rest).0);
      case Sequence(params, final) =>
        FeedSequence(mode, f, items[0]);
        var (r, c) := ParseEscapeSequence(f.console, final, params);
        var kept := if Kept(mode, r) then Show(items[0]) else "";
        var g := f.(out := f.out + kept, console := c);
        assert f.out + "" == f.out;
        assert FeedAll(mode, f, Show(items[0])) == g;
        FeedIsReference(mode, g, rest);
        ConcatAssoc(f.out, kept, Reference(mode, c, rest).0);
    }
  }

  // ---------- Write ----------

  /**
   A call does not slice before the start of its input: not when it begins with the '[' of a sequence
   whose ESC came in an earlier call and then sees the end of that sequence.
   */
  predicate Sliceable(state: CsiState, p: string) {
    state == FirstCsiCode && p != "" && p[0] == '[' ==> forall k :: 1 <= k < |p| ==> IsParameterChar(p[k])
  }

  class AnsiColorWriter {
    const mode: Mode
    var state: CsiState
    var paramStartBuf: string
    var paramBuf: string
    var out: string  // what the underlying writer has been given
    var console: Console

    ghost function Value(): Filter
      reads this
    {
      Filter(state, paramStartBuf, paramBuf, out, console)
    }

    // Outside the discarding mode a call forgets a sequence left open by the last one.
    ghost function Begin(): Filter
      reads this
    {
      if mode == DiscardNonColorEscSeq then Value() else Value().(state := OutsideCsiCode, start := "", params := "")
    }

    constructor (mode: Mode, console: Console)
      ensures this.mode == mode && Value() == Filter(OutsideCsiCode, "", "", "", console)
    {
      this.mode, this.console := mode, console;
      state, paramStartBuf, paramBuf, out := OutsideCsiCode, "", "", "";
    }

    /** `flushTo`: both buffers go to the writer, or nowhere. */
    method FlushTo(keep: bool) returns (n: nat)
      modifies this
      ensures n == |old(paramStartBuf)| + |old(paramBuf)| && paramStartBuf == paramBuf == ""
      ensures out == if keep then old(out) + old(paramStartBuf) + old(paramBuf) else old(out)
      ensures state == old(state) && console == old(console)
    {
      var startBytes := paramStartBuf;
      paramStartBuf := "";
      if keep {
        out := out + startBytes;
      }
      var paramBytes := paramBuf;
      paramBuf := "";
      if keep {
        out := out + paramBytes;
      }
      n := |startBytes| + |paramBytes|;
    }

    // The end of a sequence at the byte `ch`, after the text before it has been written.
    method EndSequence(ch: char) returns (n: nat)
      requires state == SecondCsiCode && !IsParameterChar(ch)
      modifies this
      ensures Value() == Finish(mode, old(Value()), ch)
      ensures n == |old(paramStartBuf)| + |old(paramBuf)| + 1
    {
      var (result, c) := ParseEscapeSequence(console, ch, paramBuf);
      console := c;
      if result == NoConsole || (mode == OutputNonColorEscSeq && result == Unknown) {
        paramBuf := paramBuf + [ch];
        n := FlushTo(true);
      } else {
        n := FlushTo(false);
        n := n + 1;
      }
      state := OutsideCsiCode;
    }

    method Write(p: string) returns (r: nat)
      requires mode == DiscardNonColorEscSeq ==> Sliceable(state, p)
      modifies this
      ensures Regular(mode, old(Begin()), p) && Idle(old(Begin())) && Idle(FeedAll(mode, old(Begin()), p))
          ==> Value() == FeedAll(mode, old(Begin()), p) && r == |p|
      ensures Regular(mode, old(Begin()), p) && |p| == 1 && mode == DiscardNonColorEscSeq
          ==> Value() == FeedAll(mode, old(Begin()), p)
    {
      r := 0;
      var first: nat, last: int := 0, 0;
      if mode != DiscardNonColorEscSeq {
        state := OutsideCsiCode;
        var n := FlushTo(false);
      }
      ghost var f0, f := Begin(), Begin();
      ghost var regular, whole := Regular(mode, f0, p), Idle(f0);
      assert p[0..] == p;
      Starts(p, f);
      hide FeedAll, Regular, Feed, Indices, Follows, Counts;
      for i := 0 to |p|
        invariant Indices(p, i, first, last)
        invariant regular ==> Regular(mode, f, p[i..]) && FeedAll(mode, f0, p) == FeedAll(mode, f, p[i..])
        invariant regular ==> Follows(f, p, i, first, last)
        invariant regular && whole ==> Counts(f, i, first, last, r)
      {
        FeedAt(mode, f, p, i);
        first, last, r := ScanByte(p, i, first, last, r, f, regular, whole);
        f := Feed(mode, f, p[i]);
      }
      FeedAt(mode, f, p, |p|);
      r := EndCall(p, first, last, r, f, regular, whole);
    }

    // Before the first byte of a call.
    lemma Starts(p: string, f: Filter)
      requires f == Begin() && (mode == DiscardNonColorEscSeq ==> Sliceable(state, p))
      requires mode != DiscardNonColorEscSeq ==> state == OutsideCsiCode && paramStartBuf == paramBuf == ""
      ensures Indices(p, 0, 0, 0) && Follows(f, p, 0, 0, 0) && (Idle(f) ==> Counts(f, 0, 0, 0, 0))
    {
      assert p[0..0] == "";
      assert out + p[0..0] == out;
    }

    // After its last byte: the text that is left is written, unless a sequence is open.
    method EndCall(p: string, first: nat, last: int, r0: nat, ghost f: Filter, ghost regular: bool, ghost whole: bool)
      returns (r: nat)
      requires Indices(p, |p|, first, last)
      requires regular ==> Follows(f, p, |p|, first, last)
      requires regular && whole ==> Counts(f, |p|, first, last, r0)
      modifies this
      ensures regular && whole && Idle(f) ==> Value() == f && r == |p|
      ensures regular && |p| == 1 && mode == DiscardNonColorEscSeq ==> Value() == f
    {
      assert p[first..] == p[first..|p|];
      r := r0;
      if mode != DiscardNonColorEscSeq || state == OutsideCsiCode {
        out := out + p[first..];
        r := r + (|p| - first);
      }
    }

    // The slices of this call stay inside its input.
    ghost predicate Indices(p: string, i: nat, first: nat, last: int)
      reads this
    {
      && first <= i <= |p| && -1 <= last <= (if i == 0 then 0 else i - 1) && (i == 0 ==> first == last == 0)
      && (state == FirstCsiCode ==> i == 0 || first < i)
      && (state == SecondCsiCode ==>
            first <= last || (last == -1 && first == 0 && forall k :: i <= k < |p| ==> IsParameterChar(p[k])))
      && (i == 0 ==> Sliceable(state, p))
    }

    // Up to text that has not been written yet, the writer is where the byte-wise filter is.
    ghost predicate Follows(f: Filter, p: string, i: nat, first: nat, last: int)
      requires Indices(p, i, first, last)
      reads this
    {
      && state == f.state && paramStartBuf == f.start && paramBuf == f.params && console == f.console
      && f.out == out + p[first..Written(i, last)]
    }

    // Of a call that began outside any sequence, the bytes before `first` have been accounted for.
    ghost predicate Counts(f: Filter, i: nat, first: nat, last: int, r: nat)
      reads this
    {
      && r == first && |f.start| + |f.params| == i - Written(i, last)
      && (state == FirstCsiCode ==> f.start == [ESC] && f.params == "" && i > 0)
    }

    // The switch for one byte.
    method ScanByte(p: string, i: nat, first0: nat, last0: int, r0: nat, ghost f: Filter, ghost regular: bool, ghost whole: bool)
      returns (first: nat, last: int, r: nat)
      requires i < |p| && Indices(p, i, first0, last0)
      requires regular ==> Follows(f, p, i, first0, last0) && (f.state == FirstCsiCode ==> p[i] == '[')
      requires regular && whole ==> Counts(f, i, first0, last0, r0)
      modifies this
      ensures Indices(p, i + 1, first, last)
      ensures regular ==> Follows(Feed(mode, f, p[i]), p, i + 1, first, last)
      ensures regular && whole ==> Counts(Feed(mode, f, p[i]), i + 1, first, last, r)
    {
      hide ParseEscapeSequence, Kept;
      first, last, r := first0, last0, r0;
      var ch := p[i];
      match state {
        case OutsideCsiCode =>
          if ch == ESC {
            paramStartBuf := paramStartBuf + [ch];
            state := FirstCsiCode;
          } else {
            assert p[first..i + 1] == p[first..i] + [ch];
          }
        case FirstCsiCode =>
          if ch == ESC {
            paramStartBuf := paramStartBuf + [ch];
          } else if ch == '[' {
            paramStartBuf := paramStartBuf + [ch];
            state := SecondCsiCode;
            last := i - 1;
          } else {
            var n := FlushTo(false);
            state := OutsideCsiCode;
          }
        case SecondCsiCode =>
          if IsParameterChar(ch) {
            paramBuf := paramBuf + [ch];
          } else {
            out := out + p[first..last];
            r := r + (last - first);
            first := i + 1;
            var n := EndSequence(ch);
            r := r + n;
          }
      }
    }

    // How far the text of this call reaches that is not part of an open sequence.
    ghost function Written(i: nat, last: int): (n: nat)
      reads this
    {
      match state
      case OutsideCsiCode => i
      case FirstCsiCode => if i == 0 then 0 else i - 1
      case SecondCsiCode => if last < 0 then 0 else last
    }

    /** The input handed over one byte per call. */
    method WriteEach(p: string)
      requires mode == DiscardNonColorEscSeq && Regular(mode, Value(), p)
      modifies this
      ensures Value() == FeedAll(mode, old(Value()), p)
    {
      assert p[0..] == p;
      for i := 0 to |p|
        invariant Regular(mode, Value(), p[i..]) && FeedAll(mode, Value(), p[i..]) == FeedAll(mode, old(Value()), p)
      {
        assert p[i..] == [p[i]] + p[i + 1..];
        FeedConcat(mode, Value(), [p[i]], p[i + 1..]);
        var n := Write([p[i]]);
      }
      assert p[|p|..] == "";
    }

    /** A whole input of text and sequences in one call writes the reference's output, and all of its bytes. */
    method WriteWhole(ghost items: seq<Item>, p: string) returns (r: nat)
      requires Idle(Value()) && p == ShowAll(items) && forall k :: 0 <= k < |items| ==> ItemOk(items[k])
      modifies this
      ensures Value() == old(Value()).(out := old(out) + Reference(mode, old(console), items).0,
                                       console := Reference(mode, old(console), items).1)
      ensures r == |p|
    {
      FeedIsReference(mode, Value(), items);
      r := Write(p);
    }

    /** And one byte per call does the same. */
    method WriteByBytes(ghost items: seq<Item>, p: string)
      requires mode == DiscardNonColorEscSeq
      requires Idle(Value()) && p == ShowAll(items) && forall k :: 0 <= k < |items| ==> ItemOk(items[k])
      modifies this
      ensures Value() == old(Value()).(out := old(out) + Reference(mode, old(console), items).0,
                                       console := Reference(mode, old(console), items).1)
    {
      FeedIsReference(mode, Value(), items);
      WriteEach(p);
    }
  }
}
