/**
 An independent description of what `skipLog` skips: fields as trees, groups nested to any depth.
 `Skip` accepts every printed tree whatever follows it, and everything it skips inside the input is
 the print of such a tree.
 */
module WireGrammar {
  import opened Basics
  import opened Wire

  // The tags, lengths and varint payloads are kept as the bytes they were written with, because
  // the decoder does not insist on minimal varints.
  datatype Node =
    | VarintNode(tag: bytes, payload: bytes)
    | Fixed64Node(tag: bytes, body: bytes)
    | BytesNode(tag: bytes, len: bytes, body: bytes)
    | GroupNode(tag: bytes, items: Nodes, end: bytes)
    | Fixed32Node(tag: bytes, body: bytes)

  datatype Nodes = Nil | Cons(head: Node, tail: Nodes)

  /** A varint by shape: at most ten bytes, and the last one alone has its top bit clear. */
  predicate VarintShape(b: bytes) {
    && 1 <= |b| <= MAX_GROUPS
    && b[|b| - 1] < 0x80
    && forall i :: 0 <= i < |b| - 1 ==> b[i] >= 0x80
  }

  /** The number a string of seven-bit groups stands for, least significant group first. */
  function GroupsValue(b: bytes): nat {
    if b == [] then 0 else b[0] % 0x80 + 0x80 * GroupsValue(b[1..])
  }

  predicate TagOf(tag: bytes, wireType: nat) {
    VarintShape(tag) && GroupsValue(tag) % 8 == wireType
  }

  function WireType(f: Node): nat {
    match f
    case VarintNode(_, _) => 0
    case Fixed64Node(_, _) => 1
    case BytesNode(_, _, _) => 2
    case GroupNode(_, _, _) => 3
    case Fixed32Node(_, _) => 5
  }

  predicate WellFormed(f: Node)
    decreases f, 1
  {
    TagOf(f.tag, WireType(f)) && BodyWellFormed(f)
  }

  predicate BodyWellFormed(f: Node)
    decreases f, 0
  {
    match f
    case VarintNode(_, payload) => VarintShape(payload)
    case Fixed64Node(_, body) => |body| == 8
    case BytesNode(_, len, body) =>
      VarintShape(len) && |body| < TWO_63 && GroupsValue(len) % TWO_64 == |body|
    case GroupNode(_, items, end) => AllWellFormed(items) && TagOf(end, 4)
    case Fixed32Node(_, body) => |body| == 4
  }

  predicate AllWellFormed(fs: Nodes)
    decreases fs, 2
  {
    match fs
    case Nil => true
    case Cons(f, rest) => WellFormed(f) && AllWellFormed(rest)
  }

  function Print(f: Node): bytes
    decreases f, 1
  {
    f.tag + PrintBody(f)
  }

  function PrintBody(f: Node): bytes
    decreases f, 0
  {
    match f
    case VarintNode(_, payload) => payload
    case Fixed64Node(_, body) => body
    case BytesNode(_, len, body) => len + body
    case GroupNode(_, items, end) => PrintAll(items) + end
    case Fixed32Node(_, body) => body
  }

  function PrintAll(fs: Nodes): bytes
    decreases fs, 2
  {
    match fs
    case Nil => []
    case Cons(f, rest) => Print(f) + PrintAll(rest)
  }

  lemma {:induction false} GroupsOfShape(b: bytes, left: nat, t: bytes)
    requires 1 <= |b| <= left && b[|b| - 1] < 0x80
    requires forall i :: 0 <= i < |b| - 1 ==> b[i] >= 0x80
    ensures ReadGroups(b + t, left) == Ok(Scan(GroupsValue(b), |b|))
  {
    if |b| == 1 {
      assert b[1..] == [];
    } else {
      assert (b + t)[1..] == b[1..] + t;
      GroupsOfShape(b[1..], left - 1, t);
    }
  }

  lemma {:induction false} ShapeOfGroups(d: bytes, left: nat)
    requires ReadGroups(d, left).Ok?
    ensures var n := ReadGroups(d, left).value.used;
      && d[n - 1] < 0x80
      && (forall i :: 0 <= i < n - 1 ==> d[i] >= 0x80)
      && ReadGroups(d, left).value.value == GroupsValue(d[..n])
  {
    var n := ReadGroups(d, left).value.used;
    if d[0] < 0x80 {
      assert d[..1][1..] == [];
    } else {
      ShapeOfGroups(d[1..], left - 1);
      assert d[1..][..n - 1] == d[..n][1..];
    }
  }

  /** Reading a varint succeeds exactly on inputs with a prefix of varint shape, and yields its value. */
  lemma VarintExact(b: bytes, t: bytes)
    ensures VarintShape(b) <==> ReadVarint(b + t) == Ok(Scan(GroupsValue(b), |b|))
  {
    if VarintShape(b) {
      GroupsOfShape(b, MAX_GROUPS, t);
    }
    if ReadVarint(b + t) == Ok(Scan(GroupsValue(b), |b|)) {
      ShapeOfGroups(b + t, MAX_GROUPS);
      forall i | 0 <= i < |b|
        ensures b[i] == (b + t)[i]
      {
      }
    }
  }

  lemma ReadShape(d: bytes) returns (b: bytes, rest: bytes)
    requires ReadVarint(d).Ok?
    ensures d == b + rest && VarintShape(b) && |b| == ReadVarint(d).value.used
    ensures ReadVarint(d).value.value == GroupsValue(b)
  {
    var n := ReadVarint(d).value.used;
    b, rest := d[..n], d[n..];
    ShapeOfGroups(d, MAX_GROUPS);
  }

  lemma SkipOfTag(tag: bytes, rest: bytes)
    requires VarintShape(tag)
    ensures ReadVarint(tag + rest) == Ok(Scan(GroupsValue(tag), |tag|))
    ensures Skip(tag + rest) == Shifted(SkipBody(GroupsValue(tag) % 8, rest), |tag|)
  {
    VarintExact(tag, rest);
    assert (tag + rest)[|tag|..] == rest;
  }

  /** Completeness: every well-formed field is skipped as a whole, whatever follows it. */
  lemma {:induction false} SkipAcceptsNode(f: Node, t: bytes)
    requires WellFormed(f)
    ensures Skip(Print(f) + t) == Ok(|Print(f)|)
    decreases f, 1
  {
    assert Print(f) + t == f.tag + (PrintBody(f) + t);
    SkipOfTag(f.tag, PrintBody(f) + t);
    SkipBodyAcceptsNode(f, t);
  }

  lemma {:induction false} SkipBodyAcceptsNode(f: Node, t: bytes)
    requires BodyWellFormed(f)
    ensures SkipBody(WireType(f), PrintBody(f) + t) == Ok(|PrintBody(f)|)
    decreases f, 0
  {
    match f
    case VarintNode(tag, payload) =>
      VarintExact(payload, t);
    case Fixed64Node(tag, body) =>
    case BytesNode(tag, len, body) =>
      assert PrintBody(f) + t == len + (body + t);
      VarintExact(len, body + t);
    case GroupNode(tag, items, end) =>
      assert PrintBody(f) + t == PrintAll(items) + (end + t);
      SkipGroupAcceptsNodes(items, end, t);
    case Fixed32Node(tag, body) =>
  }

  lemma {:induction false} SkipGroupAcceptsNodes(fs: Nodes, end: bytes, t: bytes)
    requires AllWellFormed(fs) && TagOf(end, 4)
    ensures SkipGroup(PrintAll(fs) + (end + t)) == Ok(|PrintAll(fs)| + |end|)
    decreases fs, 2
  {
    match fs
    case Nil =>
      assert PrintAll(fs) + (end + t) == end + t;
      VarintExact(end, t);
    case Cons(f, tail) =>
      var more := PrintAll(tail) + (end + t);
      var d := PrintAll(fs) + (end + t);
      assert d == Print(f) + more;
      SkipAcceptsNode(f, more);
      NodeTag(f, more);
      assert d[|Print(f)|..] == more;
      SkipGroupAcceptsNodes(tail, end, t);
  }

  // A printed field never starts with an end-group tag.
  lemma NodeTag(f: Node, t: bytes)
    requires WellFormed(f)
    ensures ReadVarint(Print(f) + t).Ok? && ReadVarint(Print(f) + t).value.value % 8 != 4
  {
    assert Print(f) + t == f.tag + (PrintBody(f) + t);
    VarintExact(f.tag, PrintBody(f) + t);
  }

  /** Soundness: what is skipped, and does not start with an end-group tag, is one well-formed field. */
  lemma {:induction false} SkipYieldsNode(d: bytes) returns (f: Node)
    requires Skip(d).Ok? && Skip(d).value <= |d|
    requires ReadVarint(d).value.value % 8 != 4
    ensures WellFormed(f) && Print(f) == d[..Skip(d).value]
    decreases |d|, 0
  {
    var tag, rest := ReadShape(d);
    SkipOfTag(tag, rest);
    f := SkipBodyYieldsNode(tag, rest);
    assert d[..Skip(d).value] == tag + rest[..|PrintBody(f)|];
  }

  lemma {:induction false} SkipBodyYieldsNode(tag: bytes, d: bytes) returns (f: Node)
    requires VarintShape(tag) && GroupsValue(tag) % 8 != 4
    requires SkipBody(GroupsValue(tag) % 8, d).Ok? && SkipBody(GroupsValue(tag) % 8, d).value <= |d|
    ensures f.tag == tag && WellFormed(f) && PrintBody(f) == d[..SkipBody(GroupsValue(tag) % 8, d).value]
    decreases |d|, 2
  {
    var wireType := GroupsValue(tag) % 8;
    if wireType == 0 {
      var payload, more := ReadShape(d);
      f := VarintNode(tag, payload);
    } else if wireType == 1 {
      f := Fixed64Node(tag, d[..8]);
    } else if wireType == 2 {
      var len, more := ReadShape(d);
      f := BytesNode(tag, len, more[..ReadLength(d).value.value]);
    } else if wireType == 3 {
      var items, end := SkipGroupYieldsNodes(d);
      f := GroupNode(tag, items, end);
    } else {
      f := Fixed32Node(tag, d[..4]);
    }
  }

  lemma {:induction false} SkipGroupYieldsNodes(d: bytes) returns (fs: Nodes, end: bytes)
    requires SkipGroup(d).Ok?
    ensures AllWellFormed(fs) && TagOf(end, 4) && PrintAll(fs) + end == d[..SkipGroup(d).value]
    decreases |d|, 1
  {
    var tag, more := ReadShape(d);
    if GroupsValue(tag) % 8 == 4 {
      fs, end := Nil, tag;
    } else {
      var n := Skip(d).value;
      var head := SkipYieldsNode(d);
      var tail;
      tail, end := SkipGroupYieldsNodes(d[n..]);
      fs := Cons(head, tail);
      JoinGroup(d, n, SkipGroup(d[n..]).value, head, tail, end);
    }
  }

  lemma JoinGroup(d: bytes, n: nat, k: nat, head: Node, tail: Nodes, end: bytes)
    requires n + k <= |d|
    requires Print(head) == d[..n] && PrintAll(tail) + end == d[n..][..k]
    ensures PrintAll(Cons(head, tail)) + end == d[..n + k]
  {
    assert PrintAll(Cons(head, tail)) + end == Print(head) + (PrintAll(tail) + end);
  }

  /** `Skip` stops inside the input exactly on the prefixes that are well-formed fields. */
  lemma SkipExact(p: bytes, t: bytes)
    requires ReadVarint(p + t).Ok? && ReadVarint(p + t).value.value % 8 != 4
    ensures Skip(p + t) == Ok(|p|) <==> exists f :: WellFormed(f) && Print(f) == p
  {
    if Skip(p + t) == Ok(|p|) {
      var f := SkipYieldsNode(p + t);
      assert Print(f) == p;
    }
    forall f | WellFormed(f) && Print(f) == p
      ensures Skip(p + t) == Ok(|p|)
    {
      SkipAcceptsNode(f, t);
    }
  }
}
