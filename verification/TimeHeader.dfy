/** The time stamp at the head of a log line: `itoa` and `formatTimeHeader` of `internal/logs/logger.go`. */
module TimeHeader {
  import opened Basics

  // ---------- itoa ----------

  // Go's division of integers truncates toward zero.
  function Quotient(i: int): int {
    if i >= 0 then i / 10 else -(-i / 10)
  }

  // byte('0' + d): the conversion keeps eight bits.
  function DigitByte(d: int): byte {
    (48 + d) % 256
  }

  predicate Continues(i: int, wid: int) {
    i >= 10 || wid > 1
  }

  function Rounds(i: int, wid: int): int {
    (if i >= 10 then i else 0) + (if wid > 1 then wid else 0)
  }

  lemma RoundsDecrease(i: int, wid: int)
    requires Continues(i, wid)
    ensures 0 <= Rounds(Quotient(i), wid - 1) < Rounds(i, wid)
  {
  }

  /** The bytes the loop of `itoa` assembles from the right. */
  function Itoa(i: int, wid: int): (s: bytes)
    ensures |s| >= 1
    decreases Rounds(i, wid)
  {
    if Continues(i, wid) then
      RoundsDecrease(i, wid);
      Itoa(Quotient(i), wid - 1) + [DigitByte(i - Quotient(i) * 10)]
    else [DigitByte(i)]
  }

  function Pow10(n: nat): (p: nat)
    ensures p >= 1
  {
    if n == 0 then 1 else 10 * Pow10(n - 1)
  }

  // The value of decimal digits.
  function Number(s: bytes): int
    decreases |s|
  {
    if s == [] then 0 else 10 * Number(s[..|s| - 1]) + s[|s| - 1] - 48
  }

  predicate AllDigits(s: bytes) {
    forall k :: 0 <= k < |s| ==> 48 <= s[k] < 58
  }

  /** A number is printed in decimal, in `wid` digits when these are enough. */
  lemma {:induction false} ItoaPrints(i: nat, wid: int)
    ensures Number(Itoa(i, wid)) == i && AllDigits(Itoa(i, wid))
    ensures wid >= 1 && i < Pow10(wid) ==> |Itoa(i, wid)| == wid
    ensures wid >= 0 && i >= Pow10(wid) ==> |Itoa(i, wid)| > wid
    decreases Rounds(i, wid)
  {
    var s := Itoa(i, wid);
    if Continues(i, wid) {
      RoundsDecrease(i, wid);
      ItoaPrints(i / 10, wid - 1);
      assert s[..|s| - 1] == Itoa(i / 10, wid - 1);
    } else {
      assert s[..0] == [];
      assert wid == 1 ==> Pow10(1) == 10 * Pow10(0);
    }
  }

  /** The six-byte array is enough exactly below a million: and never for a wider field. */
  lemma {:induction false} ItoaFits(i: int, wid: int, n: nat)
    requires n >= 1
    ensures |Itoa(i, wid)| <= n <==> i < Pow10(n) && wid <= n
    decreases Rounds(i, wid)
  {
    if Continues(i, wid) {
      RoundsDecrease(i, wid);
      if n > 1 {
        ItoaFits(Quotient(i), wid - 1, n - 1);
      } else {
        assert Pow10(1) == 10 * Pow10(0);
      }
    } else {
      PowGrows(n);
    }
  }

  lemma {:induction false} PowGrows(n: nat)
    requires n >= 1
    ensures Pow10(n) >= 10
  {
    if n > 1 {
      PowGrows(n - 1);
    } else {
      assert Pow10(1) == 10 * Pow10(0);
    }
  }

  lemma PowSix()
    ensures Pow10(1) == 10 && Pow10(2) == 100 && Pow10(4) == 10_000 && Pow10(6) == 1_000_000
  {
    assert Pow10(1) == 10 * Pow10(0);
    assert Pow10(2) == 10 * Pow10(1);
    assert Pow10(4) == 10 * Pow10(3) && Pow10(3) == 10 * Pow10(2);
    assert Pow10(6) == 10 * Pow10(5) && Pow10(5) == 10 * Pow10(4);
  }

  // One round of the loop puts the last digit in front of the tail.
  lemma ItoaRound(v: int, w: int, tail: bytes)
    requires Continues(v, w)
    ensures Itoa(v, w) + tail == Itoa(Quotient(v), w - 1) + ([DigitByte(v - Quotient(v) * 10)] + tail)
  {
    ConcatAssoc(Itoa(Quotient(v), w - 1), [DigitByte(v - Quotient(v) * 10)], tail);
  }

  /** None stands for the run-time panic of an index outside the array. */
  method AppendItoa(buf: bytes, i: int, wid: int) returns (out: Option<bytes>)
    ensures out == if i < 1_000_000 && wid <= 6 then Some(buf + Itoa(i, wid)) else None
  {
    PowSix();
    ItoaFits(i, wid, 6);
    ghost var whole := Itoa(i, wid);
    var b := new byte[6];
    var bp, v, w := b.Length - 1, i, wid;
    assert b[6..] == [];
    hide Pow10, DigitByte, Rounds, Quotient;
    while v >= 10 || w > 1
      invariant -1 <= bp < 6
      invariant whole == Itoa(v, w) + b[bp + 1..]
      decreases Rounds(v, w)
    {
      RoundsDecrease(v, w);
      ItoaRound(v, w, b[bp + 1..]);
      w := w - 1;
      var q := Quotient(v);
      if bp < 0 {
        return None;
      }
      ghost var tail := b[bp + 1..];
      b[bp] := DigitByte(v - q * 10);
      assert b[bp..] == [DigitByte(v - q * 10)] + tail;
      bp := bp - 1;
      v := q;
    }
    if bp < 0 {
      return None;
    }
    ghost var tail := b[bp + 1..];
    b[bp] := DigitByte(v);
    assert b[bp..] == [DigitByte(v)] + tail;
    return Some(buf + b[bp..]);
  }

  // ---------- formatTimeHeader ----------

  // What Date, Clock and Nanosecond of a time say.
  datatype Time = Time(year: int, month: int, day: int, hour: int, minute: int, second: int, nano: int)

  function MonthLength(year: int, month: int): int {
    if month == 2 then if year % 4 == 0 && (year % 100 != 0 || year % 400 == 0) then 29 else 28
    else if month in {4, 6, 9, 11} then 30
    else 31
  }

  predicate Civil(t: Time) {
    && 1 <= t.month <= 12 && 1 <= t.day <= MonthLength(t.year, t.month)
    && 0 <= t.hour < 24 && 0 <= t.minute < 60 && 0 <= t.second < 60 && 0 <= t.nano < 1_000_000_000
  }

  // A number with its width, and the byte after it.
  datatype Field = Field(value: int, width: nat, after: byte)

  const SLASH: byte := 47
  const SPACE: byte := 32
  const COLON: byte := 58
  const DOT: byte := 46

  function Fields(t: Time): seq<Field>
    requires t.nano >= 0
  {
    [Field(t.year, 4, SLASH), Field(t.month, 2, SLASH), Field(t.day, 2, SPACE), Field(t.hour, 2, COLON),
     Field(t.minute, 2, COLON), Field(t.second, 2, DOT), Field(t.nano / 1000, 6, SPACE)]
  }

  function Render(fs: seq<Field>): bytes {
    if fs == [] then [] else Itoa(fs[0].value, fs[0].width) + [fs[0].after] + Render(fs[1..])
  }

  function Header(t: Time): bytes
    requires t.nano >= 0
  {
    Render(Fields(t))
  }

  lemma {:induction false} RenderAppend(fs: seq<Field>, f: Field)
    ensures Render(fs + [f]) == Render(fs) + Itoa(f.value, f.width) + [f.after]
    decreases |fs|
  {
    if fs == [] {
      assert [f][1..] == [];
    } else {
      RenderAppend(fs[1..], f);
      assert (fs + [f])[1..] == fs[1..] + [f];
      var x := Itoa(fs[0].value, fs[0].width) + [fs[0].after];
      ConcatAssoc(x, Render(fs[1..]) + Itoa(f.value, f.width), [f.after]);
      ConcatAssoc(x, Render(fs[1..]), Itoa(f.value, f.width));
    }
  }

  method AppendField(buf: bytes, f: Field, ghost done: seq<Field>) returns (out: Option<bytes>)
    requires buf == Render(done)
    ensures out == if f.value < 1_000_000 && f.width <= 6 then Some(Render(done + [f])) else None
  {
    var o := AppendItoa(buf, f.value, f.width);
    match o
    case None => out := None;
    case Some(b) =>
      RenderAppend(done, f);
      out := Some(b + [f.after]);
  }

  /** Only a year of a million or more makes the program panic. */
  method FormatTimeHeader(t: Time) returns (r: Option<(bytes, int)>)
    requires Civil(t)
    ensures r == if t.year < 1_000_000 then Some((Header(t), t.day)) else None
  {
    ghost var fs := Fields(t);
    TakeAll(fs);
    assert Render([]) == [];
    hide Render, Itoa, Fields;
    var o := AppendField([], Field(t.year, 4, SLASH), fs[..0]);
    if o == None { return None; }
    o := AppendField(o.value, Field(t.month, 2, SLASH), fs[..1]);
    o := AppendField(o.value, Field(t.day, 2, SPACE), fs[..2]);
    o := AppendField(o.value, Field(t.hour, 2, COLON), fs[..3]);
    o := AppendField(o.value, Field(t.minute, 2, COLON), fs[..4]);
    o := AppendField(o.value, Field(t.second, 2, DOT), fs[..5]);
    o := AppendField(o.value, Field(t.nano / 1000, 6, SPACE), fs[..6]);
    return Some((o.value, t.day));
  }

  // The fields, one after the other.
  lemma TakeAll(fs: seq<Field>)
    requires |fs| == 7
    ensures fs[..0] == [] && fs[..0] + [fs[0]] == fs[..1] && fs[..1] + [fs[1]] == fs[..2] && fs[..2] + [fs[2]] == fs[..3]
    ensures fs[..3] + [fs[3]] == fs[..4] && fs[..4] + [fs[4]] == fs[..5] && fs[..5] + [fs[5]] == fs[..6]
    ensures fs[..6] + [fs[6]] == fs
  {
  }

  // ---------- length and contents ----------

  predicate FieldFits(f: Field) {
    0 <= f.value < Pow10(f.width) && 1 <= f.width
  }

  function Widths(fs: seq<Field>): nat {
    if fs == [] then 0 else fs[0].width + 1 + Widths(fs[1..])
  }

  lemma {:induction false} RenderLength(fs: seq<Field>)
    requires forall k :: 0 <= k < |fs| ==> FieldFits(fs[k])
    ensures |Render(fs)| == Widths(fs)
    decreases |fs|
  {
    if fs != [] {
      ItoaPrints(fs[0].value, fs[0].width);
      RenderLength(fs[1..]);
    }
  }

  // The field stands at this place.
  predicate ReadsAt(s: bytes, at: nat, f: Field) {
    at + f.width < |s| && s[at..at + f.width] == Itoa(f.value, f.width) && s[at + f.width] == f.after
  }

  lemma ReadsFirst(f: Field, rest: bytes)
    requires |Itoa(f.value, f.width)| == f.width
    ensures ReadsAt(Itoa(f.value, f.width) + [f.after] + rest, 0, f)
  {
    hide Itoa;
  }

  lemma ReadsLater(first: bytes, rest: bytes, at: nat, f: Field)
    requires ReadsAt(rest, at, f)
    ensures ReadsAt(first + rest, |first| + at, f)
  {
    hide Itoa;
    var s := first + rest;
    assert s[|first| + at..|first| + at + f.width] == rest[at..at + f.width];
  }

  lemma PlaceNext(fs: seq<Field>, k: nat)
    requires 0 < k < |fs|
    ensures Widths(fs[..k]) == fs[0].width + 1 + Widths(fs[1..][..k - 1])
  {
    assert fs[..k][0] == fs[0] && fs[..k][1..] == fs[1..][..k - 1];
  }

  // Field k can be read at its place, whatever the others hold.
  lemma {:induction false} RenderReads(fs: seq<Field>, k: nat)
    requires k < |fs| && forall j :: 0 <= j < |fs| ==> FieldFits(fs[j])
    ensures ReadsAt(Render(fs), Widths(fs[..k]), fs[k])
    decreases |fs|
  {
    var number := Itoa(fs[0].value, fs[0].width);
    ItoaPrints(fs[0].value, fs[0].width);
    assert Render(fs) == number + [fs[0].after] + Render(fs[1..]);
    hide ReadsAt, Itoa, Render;
    if k == 0 {
      assert Widths(fs[..0]) == 0;
      ReadsFirst(fs[0], Render(fs[1..]));
    } else {
      RenderReads(fs[1..], k - 1);
      PlaceNext(fs, k);
      ReadsLater(number + [fs[0].after], Render(fs[1..]), Widths(fs[1..][..k - 1]), fs[k]);
    }
  }

  lemma TimeFits(t: Time)
    requires Civil(t) && 0 <= t.year < 10_000
    ensures forall k :: 0 <= k < 7 ==> FieldFits(Fields(t)[k])
  {
    PowSix();
  }

  /** From year 0 to 9999 each part of the time is read back from its fixed place, down to the microsecond. */
  lemma HeaderReads(t: Time)
    requires Civil(t) && 0 <= t.year < 10_000
    ensures var h := Header(t);
      && |h| == 27
      && Number(h[0..4]) == t.year && Number(h[5..7]) == t.month && Number(h[8..10]) == t.day
      && Number(h[11..13]) == t.hour && Number(h[14..16]) == t.minute && Number(h[17..19]) == t.second
      && Number(h[20..26]) == t.nano / 1000
      && h[4] == h[7] == 47 && h[10] == h[26] == 32 && h[13] == h[16] == 58 && h[19] == 46  // / space : .
  {
    var fs := Fields(t);
    TimeFits(t);
    RenderLength(fs);
    WidthsOfHeader(t);
    forall k | 0 <= k < 7
      ensures Number(Itoa(fs[k].value, fs[k].width)) == fs[k].value
    {
      ItoaPrints(fs[k].value, fs[k].width);
    }
    RenderReads(fs, 0);
    RenderReads(fs, 1);
    RenderReads(fs, 2);
    RenderReads(fs, 3);
    RenderReads(fs, 4);
    RenderReads(fs, 5);
    RenderReads(fs, 6);
  }

  lemma {:induction false} WidthsAppend(fs: seq<Field>, f: Field)
    ensures Widths(fs + [f]) == Widths(fs) + f.width + 1
    decreases |fs|
  {
    if fs != [] {
      WidthsAppend(fs[1..], f);
      assert (fs + [f])[1..] == fs[1..] + [f];
    } else {
      assert [f][1..] == [];
    }
  }

  lemma WidthsOfHeader(t: Time)
    requires t.nano >= 0
    ensures var fs := Fields(t);
      && Widths(fs[..0]) == 0 && Widths(fs[..1]) == 5 && Widths(fs[..2]) == 8 && Widths(fs[..3]) == 11
      && Widths(fs[..4]) == 14 && Widths(fs[..5]) == 17 && Widths(fs[..6]) == 20 && Widths(fs) == 27
  {
    var fs := Fields(t);
    forall k | 0 <= k < 7
      ensures fs[..k + 1] == fs[..k] + [fs[k]]
      ensures Widths(fs[..k + 1]) == Widths(fs[..k]) + fs[k].width + 1
    {
      WidthsAppend(fs[..k], fs[k]);
      assert fs[..k + 1] == fs[..k] + [fs[k]];
    }
    assert fs[..7] == fs;
  }

  // ---------- order ----------

  /** Lexicographic order of byte strings. */
  predicate Less(a: bytes, b: bytes)
    decreases |a|
  {
    b != [] && (a == [] || a[0] < b[0] || (a[0] == b[0] && Less(a[1..], b[1..])))
  }

  lemma {:induction false} LessConcat(a: bytes, b: bytes, x: bytes, y: bytes)
    requires |a| == |b|
    ensures Less(a + x, b + y) <==> Less(a, b) || (a == b && Less(x, y))
    decreases |a|
  {
    if a == [] {
      assert a + x == x && b + y == y;
    } else {
      LessConcat(a[1..], b[1..], x, y);
      assert (a + x)[1..] == a[1..] + x && (b + y)[1..] == b[1..] + y;
      assert a == [a[0]] + a[1..] && b == [b[0]] + b[1..];
    }
  }

  lemma LessOne(x: byte, y: byte)
    ensures Less([x], [y]) <==> x < y
  {
    assert [x][1..] == [] && [y][1..] == [];
  }

  lemma {:induction false} ItoaOrder(i: nat, j: nat, wid: nat)
    requires wid >= 1 && i < Pow10(wid) && j < Pow10(wid)
    ensures Less(Itoa(i, wid), Itoa(j, wid)) <==> i < j
    ensures Itoa(i, wid) == Itoa(j, wid) <==> i == j
    ensures |Itoa(i, wid)| == |Itoa(j, wid)| == wid
    decreases wid
  {
    ItoaPrints(i, wid);
    ItoaPrints(j, wid);
    if wid > 1 {
      ItoaOrder(i / 10, j / 10, wid - 1);
      ItoaOrderStep(i, j, wid);
    } else {
      assert Pow10(1) == 10 * Pow10(0);
      LessOne(DigitByte(i), DigitByte(j));
    }
    hide Itoa, Less;
  }

  lemma ItoaOrderStep(i: nat, j: nat, wid: nat)
    requires wid > 1 && |Itoa(i / 10, wid - 1)| == |Itoa(j / 10, wid - 1)|
    requires Less(Itoa(i / 10, wid - 1), Itoa(j / 10, wid - 1)) <==> i / 10 < j / 10
    requires Itoa(i / 10, wid - 1) == Itoa(j / 10, wid - 1) <==> i / 10 == j / 10
    ensures Less(Itoa(i, wid), Itoa(j, wid)) <==> i < j
    ensures Itoa(i, wid) == Itoa(j, wid) <==> i == j
  {
    hide Itoa, Less, DigitByte;
    var a, b := Itoa(i / 10, wid - 1), Itoa(j / 10, wid - 1);
    var x, y := DigitByte(i % 10), DigitByte(j % 10);
    ItoaLast(i, wid);
    ItoaLast(j, wid);
    LessConcat(a, b, [x], [y]);
    LessOne(x, y);
    LastEqual(a, b, x, y);
    DigitOrder(i % 10, j % 10);
    TenOrder(i, j);
  }

  lemma DigitOrder(c: nat, d: nat)
    requires c < 10 && d < 10
    ensures (DigitByte(c) < DigitByte(d) <==> c < d) && (DigitByte(c) == DigitByte(d) <==> c == d)
  {
  }

  lemma TenOrder(i: nat, j: nat)
    ensures i < j <==> i / 10 < j / 10 || (i / 10 == j / 10 && i % 10 < j % 10)
    ensures i == j <==> i / 10 == j / 10 && i % 10 == j % 10
  {
  }

  lemma ItoaLast(i: nat, wid: int)
    requires wid > 1
    ensures Itoa(i, wid) == Itoa(i / 10, wid - 1) + [DigitByte(i % 10)]
  {
  }

  lemma LastEqual(a: bytes, b: bytes, x: byte, y: byte)
    ensures a + [x] == b + [y] <==> a == b && x == y
  {
    var s, t := a + [x], b + [y];
    assert s[..|a|] == a && s[|a|] == x && t[..|b|] == b && t[|b|] == y;
  }

  // The first field that differs decides.
  predicate FieldsLess(f: seq<Field>, g: seq<Field>)
    requires |f| == |g|
  {
    f != [] && (f[0].value < g[0].value || (f[0].value == g[0].value && FieldsLess(f[1..], g[1..])))
  }

  lemma {:induction false} RenderOrder(f: seq<Field>, g: seq<Field>)
    requires |f| == |g|
    requires forall k :: 0 <= k < |f| ==>
      FieldFits(f[k]) && FieldFits(g[k]) && f[k].width == g[k].width && f[k].after == g[k].after
    ensures Less(Render(f), Render(g)) <==> FieldsLess(f, g)
    decreases |f|
  {
    if f != [] {
      var x, y := Itoa(f[0].value, f[0].width), Itoa(g[0].value, g[0].width);
      ItoaOrder(f[0].value, g[0].value, f[0].width);
      RenderOrder(f[1..], g[1..]);
      var s := [f[0].after];
      LessConcat(s, s, Render(f[1..]), Render(g[1..]));
      LessConcat(x, y, s + Render(f[1..]), s + Render(g[1..]));
      ConcatAssoc(x, s, Render(f[1..]));
      ConcatAssoc(y, s, Render(g[1..]));
      SelfNotLess(s);
    }
  }

  lemma {:induction false} SelfNotLess(a: bytes)
    ensures !Less(a, a)
    decreases |a|
  {
    if a != [] {
      SelfNotLess(a[1..]);
    }
  }

  // ---------- the calendar ----------

  // Days in the months of a year before `month`.
  function DaysBeforeMonth(year: int, month: int): nat
    requires month >= 1
  {
    if month == 1 then 0 else DaysBeforeMonth(year, month - 1) + MonthLength(year, month - 1)
  }

  // Days in the years from 0 up to `year`.
  function DaysBeforeYear(year: nat): nat {
    if year == 0 then 0 else DaysBeforeYear(year - 1) + DaysBeforeMonth(year - 1, 13)
  }

  /** Microseconds of a clock that starts with year 0. */
  function Instant(t: Time): int
    requires Civil(t) && t.year >= 0
  {
    var day := DaysBeforeYear(t.year) + DaysBeforeMonth(t.year, t.month) + t.day - 1;
    ((day * 24 + t.hour) * 60 + t.minute) * 60_000_000 + t.second * 1_000_000 + t.nano / 1000
  }

  lemma {:induction false} MonthsAscend(year: int, m: int, n: int)
    requires 1 <= m < n
    ensures DaysBeforeMonth(year, m) + MonthLength(year, m) <= DaysBeforeMonth(year, n)
    decreases n
  {
    if m < n - 1 {
      MonthsAscend(year, m, n - 1);
    }
  }

  lemma {:induction false} YearsAscend(y: nat, z: nat)
    requires y < z
    ensures DaysBeforeYear(y) + DaysBeforeMonth(y, 13) <= DaysBeforeYear(z)
    decreases z
  {
    if y < z - 1 {
      YearsAscend(y, z - 1);
    }
  }

  function DayOf(t: Time): int
    requires Civil(t) && t.year >= 0
  {
    DaysBeforeYear(t.year) + DaysBeforeMonth(t.year, t.month) + t.day - 1
  }

  predicate DateBefore(a: Time, b: Time) {
    a.year < b.year || (a.year == b.year && (a.month < b.month || (a.month == b.month && a.day < b.day)))
  }

  lemma DatesAscend(a: Time, b: Time)
    requires Civil(a) && Civil(b) && a.year >= 0 && b.year >= 0 && DateBefore(a, b)
    ensures DayOf(a) < DayOf(b)
  {
    if a.year < b.year {
      YearsAscend(a.year, b.year);
      MonthsAscend(a.year, a.month, 13);
    } else if a.month < b.month {
      MonthsAscend(a.year, a.month, b.month);
    }
  }

  predicate ClockBefore(a: Time, b: Time)
    requires a.nano >= 0 && b.nano >= 0
  {
    || a.hour < b.hour
    || (a.hour == b.hour
        && (a.minute < b.minute
            || (a.minute == b.minute
                && (a.second < b.second || (a.second == b.second && a.nano / 1000 < b.nano / 1000)))))
  }

  predicate Before(a: Time, b: Time)
    requires a.nano >= 0 && b.nano >= 0
  {
    DateBefore(a, b) || (a.year == b.year && a.month == b.month && a.day == b.day && ClockBefore(a, b))
  }

  lemma InstantsAscend(a: Time, b: Time)
    requires Civil(a) && Civil(b) && a.year >= 0 && b.year >= 0 && Before(a, b)
    ensures Instant(a) < Instant(b)
  {
    if DateBefore(a, b) {
      DatesAscend(a, b);
    }
  }

  lemma BeforeIsEarlier(a: Time, b: Time)
    requires Civil(a) && Civil(b) && a.year >= 0 && b.year >= 0
    ensures Before(a, b) <==> Instant(a) < Instant(b)
  {
    if Before(a, b) {
      InstantsAscend(a, b);
    } else if Before(b, a) {
      InstantsAscend(b, a);
    }
  }

  lemma FieldsLessIsBefore(a: Time, b: Time)
    requires a.nano >= 0 && b.nano >= 0
    ensures FieldsLess(Fields(a), Fields(b)) <==> Before(a, b)
  {
    var f, g := Fields(a), Fields(b);
    FieldsLessAt(f, g, 0);
    FieldsLessAt(f, g, 1);
    FieldsLessAt(f, g, 2);
    FieldsLessAt(f, g, 3);
    FieldsLessAt(f, g, 4);
    FieldsLessAt(f, g, 5);
    FieldsLessAt(f, g, 6);
    assert f[0..] == f && g[0..] == g;
    assert f[7..] == [] && !FieldsLess(f[7..], g[7..]);
    hide FieldsLess;
  }

  lemma FieldsLessAt(f: seq<Field>, g: seq<Field>, k: nat)
    requires |f| == |g| && k < |f|
    ensures FieldsLess(f[k..], g[k..])
       <==> f[k].value < g[k].value || (f[k].value == g[k].value && FieldsLess(f[k + 1..], g[k + 1..]))
  {
    assert f[k..][1..] == f[k + 1..] && g[k..][1..] == g[k + 1..];
  }

  /** From year 0 to 9999 headers sort as text exactly as their times do, to the microsecond. */
  lemma HeaderOrder(a: Time, b: Time)
    requires Civil(a) && Civil(b) && 0 <= a.year < 10_000 && 0 <= b.year < 10_000
    ensures Less(Header(a), Header(b)) <==> Instant(a) < Instant(b)
    ensures Header(a) == Header(b) <==> Instant(a) == Instant(b)
  {
    TimeFits(a);
    TimeFits(b);
    RenderOrder(Fields(a), Fields(b));
    RenderOrder(Fields(b), Fields(a));
    FieldsLessIsBefore(a, b);
    FieldsLessIsBefore(b, a);
    BeforeIsEarlier(a, b);
    BeforeIsEarlier(b, a);
    SelfNotLess(Header(a));
  }

  /** The header has its 27 bytes exactly when the year has at most four digits. */
  lemma HeaderLength(t: Time)
    requires Civil(t) && t.year >= 0
    ensures |Header(t)| == 27 <==> t.year < 10_000
  {
    PowSix();
    var fs := Fields(t);
    var later := t.(year := 0);
    ItoaPrints(t.year, 4);
    TimeFits(later);
    RenderLength(Fields(later));
    WidthsOfHeader(later);
    ItoaPrints(0, 4);
    assert fs[1..] == Fields(later)[1..];
  }
}
