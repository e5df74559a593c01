/** Vocabulary shared by the models of the log codec, the tunnel and the loggers. */
module Basics {

  datatype Option<+T> = None | Some(value: T)

  datatype Result<+T, +E> = Ok(value: T) | Err(error: E)

  type byte = x: int | 0 <= x < 256

  type bytes = seq<byte>

  const TWO_63: nat := 0x8000_0000_0000_0000
  const TWO_64: nat := 0x1_0000_0000_0000_0000
  const TWO_32: nat := 0x1_0000_0000
  const TWO_31: nat := 0x8000_0000

  type uint16 = x: int | 0 <= x < 0x1_0000

  type uint32 = x: int | 0 <= x < 0x1_0000_0000

  /** Go's `int32(x)` of an unsigned value: keep 32 bits, read them as two's complement. */
  function ToInt32(x: nat): int {
    var y := x % TWO_32;
    if y < TWO_31 then y else y - TWO_32
  }

  // ---------- sequences ----------

  lemma ConcatMiddle<T>(a: seq<T>, b: seq<T>, c: seq<T>)
    ensures |a + (b + c)| == |a| + |b| + |c| && (a + (b + c))[|a|..|a| + |b|] == b
  {
  }

  lemma ConcatSplit<T>(a: seq<T>, b: seq<T>, n: nat)
    requires n <= |a|
    ensures a + b == a[..n] + (a[n..] + b)
    ensures (a + b)[n..] == a[n..] + b
  {
  }

  lemma ConcatAssoc<T>(a: seq<T>, b: seq<T>, c: seq<T>)
    ensures a + b + c == a + (b + c)
  {
  }

  lemma DropConcat<T>(a: seq<T>, b: seq<T>)
    ensures (a + b)[|a|..] == b && (a + b)[..|a|] == a
  {
  }

  lemma DropDrop<T>(a: seq<T>, i: nat, j: nat)
    requires i <= j <= |a|
    ensures a[i..][j - i..] == a[j..]
  {
  }

  /** `after` is `before` with `c` stored over its elements from `at` on. */
  ghost predicate Stored<T>(before: seq<T>, after: seq<T>, at: nat, c: seq<T>) {
    && |after| == |before| && at + |c| <= |before|
    && forall k :: 0 <= k < |after| ==> after[k] == if at <= k < at + |c| then c[k - at] else before[k]
  }

  lemma StoredTwice<T>(a: seq<T>, b: seq<T>, c: seq<T>, at: nat, x: seq<T>, y: seq<T>)
    requires Stored(a, b, at, x) && Stored(b, c, at + |x|, y)
    ensures Stored(a, c, at, x + y)
  {
  }

  lemma StoredReads<T>(before: seq<T>, after: seq<T>, at: nat, c: seq<T>)
    requires Stored(before, after, at, c)
    ensures after[at..at + |c|] == c && after[..at] == before[..at] && after[at + |c|..] == before[at + |c|..]
  {
  }

  // ---------- remainders ----------

  lemma SmallMultiple(k: int, m: int)
    requires -m < k * m < m
    ensures k == 0
  {
    assert k >= 1 ==> k * m == (k - 1) * m + m;
    assert k <= -1 ==> k * m == (k + 1) * m - m;
  }

  lemma ModUnique(x: int, q: int, r: nat, m: nat)
    requires r < m && x == q * m + r
    ensures x % m == r
  {
    var q', r' := x / m, x % m;
    assert x == q' * m + r';
    assert (q - q') * m == q * m - q' * m;
    SmallMultiple(q - q', m);
  }

  lemma ModAdd(a: int, b: int, m: nat)
    requires m > 0
    ensures (a % m + b) % m == (a + b) % m
  {
    var q, r := (a % m + b) / m, (a % m + b) % m;
    assert a + b == a / m * m + (q * m + r);
    assert (a / m + q) * m == a / m * m + q * m;
    ModUnique(a + b, a / m + q, r, m);
  }

  // ---------- strings ----------

  /** `strings.Split` at one separator. */
  function Split(s: string, sep: char): (parts: seq<string>)
    ensures parts != []
  {
    if s == "" then [""]
    else
      var rest := Split(s[1..], sep);
      if s[0] == sep then [""] + rest else [[s[0]] + rest[0]] + rest[1..]
  }

  function Join(parts: seq<string>, sep: char): string
    requires parts != []
  {
    if |parts| == 1 then parts[0] else parts[0] + [sep] + Join(parts[1..], sep)
  }

  /** Splitting is the inverse of joining parts that hold no separator. */
  lemma {:induction false} SplitJoin(parts: seq<string>, sep: char)
    requires parts != [] && forall k :: 0 <= k < |parts| ==> sep !in parts[k]
    ensures Split(Join(parts, sep), sep) == parts
    decreases |parts|
  {
    if |parts| == 1 {
      SplitPlain(parts[0], sep);
    } else {
      SplitJoin(parts[1..], sep);
      SplitHead(parts[0], Join(parts[1..], sep), sep);
      assert Join(parts, sep) == parts[0] + ([sep] + Join(parts[1..], sep));
    }
  }

  lemma {:induction false} SplitPlain(s: string, sep: char)
    requires sep !in s
    ensures Split(s, sep) == [s]
  {
    if s != "" {
      assert forall c :: c in s[1..] ==> c in s;
      SplitPlain(s[1..], sep);
      assert [s[0]] + s[1..] == s;
    }
  }

  lemma {:induction false} SplitHead(s: string, t: string, sep: char)
    requires sep !in s
    ensures Split(s + ([sep] + t), sep) == [s] + Split(t, sep)
  {
    var all := s + ([sep] + t);
    if s == "" {
      assert all == [sep] + t && all[1..] == t;
    } else {
      assert forall c :: c in s[1..] ==> c in s;
      assert all[1..] == s[1..] + ([sep] + t);
      SplitHead(s[1..], t, sep);
      assert [s[0]] + s[1..] == s;
    }
  }

  /** Joining two strings at a separator joins their parts. */
  lemma {:induction false} SplitConcat(s: string, t: string, sep: char)
    ensures Split(s + ([sep] + t), sep) == Split(s, sep) + Split(t, sep)
  {
    var all := s + ([sep] + t);
    if s == "" {
      assert all == [sep] + t && all[1..] == t;
    } else {
      assert all[1..] == s[1..] + ([sep] + t);
      SplitConcat(s[1..], t, sep);
    }
  }

  // ---------- %d ----------

  function Digit(d: nat): char
    requires d < 10
  {
    '0' + d as char
  }

  lemma DigitExact(c: nat, d: nat)
    requires c < 10 && d < 10
    ensures Digit(c) == Digit(d) <==> c == d
    ensures '0' <= Digit(c) <= '9'
  {
  }

  function Digits(n: nat): (s: string)
    ensures s != ""
  {
    (if n < 10 then "" else Digits(n / 10)) + [Digit(n % 10)]
  }

  /** `%d` of a number. */
  function Decimal(n: int): string {
    if n < 0 then "-" + Digits(-n) else Digits(n)
  }

  lemma {:induction false} DigitsPlain(n: nat)
    ensures forall c :: c in Digits(n) ==> '0' <= c <= '9'
  {
    DigitExact(n % 10, 0);
    hide Digit;
    if n >= 10 {
      DigitsPlain(n / 10);
    }
  }

  lemma {:induction false} DigitsExact(m: nat, n: nat)
    ensures Digits(m) == Digits(n) <==> m == n
  {
    DigitExact(m % 10, n % 10);
    hide Digit;
    if Digits(m) == Digits(n) {
      var s, k := Digits(m), |Digits(m)| - 1;
      assert s[k] == Digit(m % 10) == Digit(n % 10);
      assert s[..k] == (if m < 10 then "" else Digits(m / 10)) == (if n < 10 then "" else Digits(n / 10));
      if m >= 10 && n >= 10 {
        DigitsExact(m / 10, n / 10);
      }
    }
  }

  /** A printed number consists of digits, and perhaps a sign. */
  lemma DecimalPlain(n: int, c: char)
    requires c != '-' && !('0' <= c <= '9')
    ensures c !in Decimal(n)
  {
    DigitsPlain(if n < 0 then -n else n);
    hide Digits;
  }

  /** Different numbers print differently. */
  lemma DecimalExact(m: int, n: int)
    ensures Decimal(m) == Decimal(n) <==> m == n
  {
    DigitsPlain(if m < 0 then -m else m);
    DigitsPlain(if n < 0 then -n else n);
    DigitsExact(if m < 0 then -m else m, if n < 0 then -n else n);
    assert m < 0 ==> Decimal(m)[0] == '-' && Decimal(m)[1..] == Digits(-m);
    assert n < 0 ==> Decimal(n)[0] == '-' && Decimal(n)[1..] == Digits(-n);
    assert m >= 0 ==> Decimal(m)[0] in Digits(m);
    assert n >= 0 ==> Decimal(n)[0] in Digits(n);
    hide Digits;
  }

  /** What a string of decimal digits, the highest first, denotes to a reader. */
  function NumberOf(s: string): int
    decreases |s|
  {
    if s == "" then 0 else 10 * NumberOf(s[..|s| - 1]) + (s[|s| - 1] as int - '0' as int)
  }

  predicate IsNumber(s: string) {
    s != "" && forall c :: c in s ==> '0' <= c <= '9'
  }

  /** A printed number reads as itself. */
  lemma {:induction false} DecimalReads(n: nat)
    ensures IsNumber(Decimal(n)) && NumberOf(Decimal(n)) == n
  {
    DigitsPlain(n);
    var s := Digits(n);
    assert s[..|s| - 1] == if n < 10 then "" else Digits(n / 10);
    assert s[|s| - 1] == Digit(n % 10);
    if n >= 10 {
      DecimalReads(n / 10);
    }
  }
}
