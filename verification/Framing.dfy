/**
 Length-prefixed frames on a stream: `encode` (`opennotrd/core/net.go`, `opennotr/client.go`) and the
 client's read loops, over every way the transport may cut the stream into pieces.
 */
module Framing {
  import opened Basics
  import opened Checksum
  import opened Packet

  /** Two length bytes, big-endian, then the data. */
  function EncodeFrame(raw: bytes): bytes {
    [Hi(Low16(|raw|)), Lo(Low16(|raw|))] + raw
  }

  function EncodeAll(ds: seq<bytes>): bytes {
    if ds == [] then [] else EncodeFrame(ds[0]) + EncodeAll(ds[1..])
  }

  lemma {:induction false} EncodeAllSnoc(ds: seq<bytes>, d: bytes)
    ensures EncodeAll(ds + [d]) == EncodeAll(ds) + EncodeFrame(d)
  {
    if ds == [] {
      assert [d][1..] == [];
    } else {
      assert (ds + [d])[1..] == ds[1..] + [d];
      EncodeAllSnoc(ds[1..], d);
    }
  }

  /** The frames that are complete in `s`, in order. */
  function Frames(s: bytes): seq<bytes> {
    if |s| < 2 then []
    else
      var n := Word(s[0], s[1]);
      if |s| < 2 + n then [] else [s[2..2 + n]] + Frames(s[2 + n..])
  }

  // The first two bytes of a frame, and its length when only the first of them is read.
  lemma FrameHead(d: bytes)
    requires |d| < 0x1_0000
    ensures var e := EncodeFrame(d);
      |e| == 2 + |d| && Word(e[0], e[1]) == |d| && Word(e[0], 0) <= |d| && e[2..] == d
  {
    var n := Low16(|d|);
    assert n == |d|;
    HiLo(n);
    hide Hi, Lo, Word;
    var head := [Hi(n), Lo(n)];
    DropConcat(head, d);
    assert EncodeFrame(d)[0] == head[0] && EncodeFrame(d)[1] == head[1];
  }

  lemma FramesOfEncode(d: bytes, rest: bytes)
    requires |d| < 0x1_0000
    ensures Frames(EncodeFrame(d) + rest) == [d] + Frames(rest)
  {
    FrameHead(d);
    hide EncodeFrame, Word;
    var s := EncodeFrame(d) + rest;
    assert s[2..2 + |d|] == d && s[2 + |d|..] == rest;
  }

  /** Reading the frames back undoes the encoding, whatever incomplete frame may follow. */
  lemma {:induction false} FramesRoundTrip(ds: seq<bytes>, rest: bytes)
    requires forall k :: 0 <= k < |ds| ==> |ds[k]| < 0x1_0000
    ensures Frames(EncodeAll(ds) + rest) == ds + Frames(rest)
  {
    if ds == [] {
      assert EncodeAll(ds) + rest == rest;
    } else {
      assert EncodeAll(ds) == EncodeFrame(ds[0]) + EncodeAll(ds[1..]);
      hide Frames, EncodeFrame, EncodeAll;
      ConcatAssoc(EncodeFrame(ds[0]), EncodeAll(ds[1..]), rest);
      FramesOfEncode(ds[0], EncodeAll(ds[1..]) + rest);
      FramesRoundTrip(ds[1..], rest);
      HeadTail(ds, Frames(rest));
    }
  }

  lemma HeadTail<T>(a: seq<T>, b: seq<T>)
    requires a != []
    ensures [a[0]] + (a[1..] + b) == a + b
  {
  }

  /** Beyond 65535 bytes the length wraps and the datagram is lost: the bound is exact. */
  lemma FrameExact(d: bytes)
    ensures |d| < 0x1_0000 <==> Frames(EncodeFrame(d)) == [d]
  {
    assert EncodeFrame(d) + [] == EncodeFrame(d);
    if |d| < 0x1_0000 {
      FramesOfEncode(d, []);
    } else {
      HiLo(Low16(|d|));
      assert |Frames(EncodeFrame(d))[0]| == Low16(|d|);
    }
  }

  lemma FrameLayout(d: bytes)
    ensures var e := EncodeFrame(d);
      |e| == 2 + |d| && Word(e[0], e[1]) == |d| % 0x1_0000 && e[2..] == d
  {
    HiLo(Low16(|d|));
  }

  /** A reader gets the length modulo 65536 and the data, and from the whole the data exactly when it is shorter. */
  method Encode(raw: bytes) returns (buf: bytes)
    ensures buf == EncodeFrame(raw)
    ensures |buf| == 2 + |raw| && 256 * buf[0] as int + buf[1] as int == |raw| % 0x1_0000 && buf[2..] == raw
    ensures |raw| < 0x1_0000 <==> Frames(buf) == [raw]
  {
    var n := Low16(|raw|);
    buf := [Hi(n), Lo(n)];
    buf := buf + raw;
    FrameLayout(raw);
    FrameExact(raw);
    hide Frames, Hi, Lo;
  }

  // ---------- a stream in pieces ----------

  function Concat(chunks: seq<bytes>): bytes {
    if chunks == [] then [] else chunks[0] + Concat(chunks[1..])
  }

  predicate NoEmpty(chunks: seq<bytes>) {
    forall c :: c in chunks ==> c != []
  }

  /** The pieces that are left when n bytes have been read. */
  function Advance(chunks: seq<bytes>, n: nat): seq<bytes> {
    if n == 0 || chunks == [] then chunks
    else if |chunks[0]| <= n then Advance(chunks[1..], n - |chunks[0]|)
    else [chunks[0][n..]] + chunks[1..]
  }

  lemma {:induction false} AdvanceConcat(chunks: seq<bytes>, n: nat)
    requires NoEmpty(chunks)
    ensures NoEmpty(Advance(chunks, n))
    ensures Concat(Advance(chunks, n)) == if n <= |Concat(chunks)| then Concat(chunks)[n..] else []
  {
    if n > 0 && chunks != [] {
      var first, rest := chunks[0], chunks[1..];
      assert forall c :: c in rest ==> c in chunks;
      if |first| <= n {
        AdvanceConcat(rest, n - |first|);
        if n <= |Concat(chunks)| {
          DropDrop(Concat(chunks), |first|, n);
          DropConcat(first, Concat(rest));
        }
      } else {
        assert ([first[n..]] + rest)[1..] == rest;
        ConcatSplit(first, Concat(rest), n);
      }
    }
  }

  lemma {:induction false} AdvanceTwice(chunks: seq<bytes>, m: nat, n: nat)
    ensures Advance(Advance(chunks, m), n) == Advance(chunks, m + n)
    decreases |chunks|
  {
    if m > 0 && chunks != [] {
      var first, rest := chunks[0], chunks[1..];
      if |first| <= m {
        AdvanceTwice(rest, m - |first|, n);
      } else if n > 0 {
        assert ([first[m..]] + rest)[1..] == rest;
        if |first| > m + n {
          DropDrop(first, m, m + n);
        }
      }
    }
  }

  /** The read side of a stream: what is still to come, in the pieces in which it will be handed out. */
  class Stream {
    var chunks: seq<bytes>

    ghost predicate Valid()
      reads this
    {
      NoEmpty(chunks)
    }

    ghost function Pending(): bytes
      reads this
    {
      Concat(chunks)
    }

    constructor (chunks: seq<bytes>)
      requires NoEmpty(chunks)
      ensures Valid() && this.chunks == chunks
    {
      this.chunks := chunks;
    }

    /** One `Read` into a buffer of `max` bytes: at most the next piece, and end of file after the last. */
    method Read(max: nat) returns (b: bytes, eof: bool)
      requires Valid() && max > 0
      modifies this
      ensures Valid()
      ensures eof == (old(chunks) == []) && old(Pending()) == b + Pending()
      ensures !eof ==> b != [] && |b| == if |old(chunks)[0]| < max then |old(chunks)[0]| else max
      ensures eof ==> b == []
      ensures chunks == Advance(old(chunks), |b|)
    {
      if chunks == [] {
        return [], true;
      }
      var first, rest := chunks[0], chunks[1..];
      assert first in chunks && forall c :: c in rest ==> c in chunks;
      if |first| <= max {
        b, chunks := first, rest;
      } else {
        b, chunks := first[..max], [first[max..]] + rest;
        assert chunks[1..] == rest;
        ConcatAssoc(first[..max], first[max..], Concat(rest));
        assert first == first[..max] + first[max..];
      }
      eof := false;
    }

    /** `io.ReadFull`: fails only when the stream ends first. */
    method ReadFull(n: nat) returns (b: bytes, ok: bool)
      requires Valid()
      modifies this
      ensures Valid()
      ensures old(Pending()) == b + Pending() && |b| <= n
      ensures ok == (|old(Pending())| >= n) == (|b| == n)
      ensures chunks == Advance(old(chunks), |b|)
    {
      b := [];
      while |b| < n
        invariant Valid() && old(Pending()) == b + Pending() && |b| <= n
        invariant chunks == Advance(old(chunks), |b|)
        decreases n - |b|
      {
        ghost var before, was := Pending(), b;
        var part, eof := Read(n - |b|);
        if eof {
          return b, false;
        }
        AdvanceTwice(old(chunks), |b|, |part|);
        b := b + part;
        ConcatAssoc(was, part, Pending());
      }
      ok := true;
    }
  }

  /** The receiving goroutine of `udpProxy`: what it writes to the local connection until the stream ends. */
  method DeliverLoop(stream: Stream) returns (delivered: seq<bytes>)
    requires stream.Valid()
    modifies stream
    ensures delivered == Frames(old(stream.Pending()))
  {
    delivered := [];
    ghost var all := stream.Pending();
    while true
      invariant stream.Valid() && Frames(all) == delivered + Frames(stream.Pending())
      decreases |stream.Pending()|
    {
      ghost var before := stream.Pending();
      var hdr, ok := stream.ReadFull(2);
      if !ok {
        break;
      }
      var nlen := Word(hdr[0], hdr[1]);
      assert stream.Pending() == before[2..] && hdr == before[..2];
      var buf;
      buf, ok := stream.ReadFull(nlen);
      if !ok {
        break;
      }
      assert buf == before[2..2 + nlen] && stream.Pending() == before[2 + nlen..];
      ConcatAssoc(delivered, [buf], Frames(stream.Pending()));
      delivered := delivered + [buf];
    }
  }

  // ---------- the proxy header ----------

  /**
   What `handleStream` makes of a stream that carries `s` when its first read returns `first` bytes.
   The length buffer keeps its zero where a read of one byte has not filled it.
   */
  function HeaderOf(s: bytes, first: nat): Option<(bytes, bytes)>
    requires 1 <= first <= 2 && first <= |s|
  {
    var n := Word(s[0], if first == 2 then s[1] else 0);
    if |s| < first + n then None else Some((s[first..first + n], s[first + n..]))
  }

  /** The header frame is parsed off the stream exactly when its two length bytes arrive together. */
  lemma HeaderExact(h: bytes, rest: bytes, first: nat)
    requires 1 <= first <= 2 && |h| < 0x1_0000
    ensures HeaderOf(EncodeFrame(h) + rest, first) == Some((h, rest)) <==> first == 2
  {
    FrameHead(h);
    hide EncodeFrame, Word;
    var s := EncodeFrame(h) + rest;
    if first == 2 {
      assert s[2..2 + |h|] == h && s[2 + |h|..] == rest;
    } else {
      var n := Word(s[0], 0);
      assert |s[1 + n..]| > |rest|;
    }
  }

  /** `handleStream` up to the parsing of the header's JSON. */
  method ReadHeader(stream: Stream) returns (body: Option<bytes>)
    requires stream.Valid()
    modifies stream
    ensures stream.Valid()
    ensures old(stream.chunks) == [] ==> body == None
    ensures old(stream.chunks) != [] ==>
      |old(stream.Pending())| >= |old(stream.chunks)[0]| >= 1 &&
      match HeaderOf(old(stream.Pending()), if |old(stream.chunks)[0]| >= 2 then 2 else 1)
      case None => body == None
      case Some(r) => body == Some(r.0) && stream.Pending() == r.1
  {
    ghost var s := stream.Pending();
    var lenbuf, eof := stream.Read(2);
    if eof {
      return None;
    }
    ghost var rest := stream.Pending();
    assert lenbuf == s[..|lenbuf|] && rest == s[|lenbuf|..];
    var bodylen := Word(lenbuf[0], if |lenbuf| == 2 then lenbuf[1] else 0);
    var buf, ok := stream.ReadFull(bodylen);
    if !ok {
      return None;
    }
    assert buf == rest[..bodylen] && stream.Pending() == rest[bodylen..];
    ConcatMiddle(lenbuf, buf, stream.Pending());
    assert s == lenbuf + (buf + stream.Pending());
    ConcatAssoc(lenbuf, buf, stream.Pending());
    DropConcat(lenbuf + buf, stream.Pending());
    return Some(buf);
  }

  /** Header and datagrams of one proxied flow come out as they went in, over any chunking. */
  method ServeStream(stream: Stream, ghost header: bytes, ghost ds: seq<bytes>) returns (delivered: seq<bytes>)
    requires stream.Valid() && stream.chunks != [] && |stream.chunks[0]| >= 2
    requires |header| < 0x1_0000 && forall k :: 0 <= k < |ds| ==> |ds[k]| < 0x1_0000
    requires stream.Pending() == EncodeFrame(header) + EncodeAll(ds)
    modifies stream
    ensures delivered == [header] + ds
  {
    HeaderExact(header, EncodeAll(ds), 2);
    var body := ReadHeader(stream);
    assert body == Some(header) && stream.Pending() == EncodeAll(ds);
    FramesRoundTrip(ds, []);
    assert EncodeAll(ds) + [] == EncodeAll(ds);
    var rest := DeliverLoop(stream);
    delivered := [body.value] + rest;
  }

  // ---------- the server's read loop ----------

  // A header read finds both bytes in the first piece; then the length and what follows are these.
  function HeaderLength(chunks: seq<bytes>): nat
    requires chunks != [] && |chunks[0]| >= 2
  {
    Word(chunks[0][0], chunks[0][1])
  }

  predicate BodyThere(chunks: seq<bytes>)
    requires chunks != [] && |chunks[0]| >= 2
  {
    |Concat(Advance(chunks, 2))| >= HeaderLength(chunks)
  }

  function Body(chunks: seq<bytes>): bytes
    requires chunks != [] && |chunks[0]| >= 2 && BodyThere(chunks)
  {
    Concat(Advance(chunks, 2))[..HeaderLength(chunks)]
  }

  function AfterBody(chunks: seq<bytes>): seq<bytes>
    requires chunks != [] && |chunks[0]| >= 2
  {
    Advance(Advance(chunks, 2), HeaderLength(chunks))
  }

  // The frame at the front: what there is, is this frame and the rest.
  lemma BodyFramed(chunks: seq<bytes>)
    requires NoEmpty(chunks) && chunks != [] && |chunks[0]| >= 2
    ensures NoEmpty(AfterBody(chunks)) && |Concat(AfterBody(chunks))| < |Concat(chunks)|
    ensures BodyThere(chunks) ==>
      && |Body(chunks)| < 0x1_0000 && Concat(chunks) == EncodeFrame(Body(chunks)) + Concat(AfterBody(chunks))
  {
    var s := Concat(chunks);
    AdvanceConcat(chunks, 2);
    AdvanceConcat(Advance(chunks, 2), HeaderLength(chunks));
    assert s[0] == chunks[0][0] && s[1] == chunks[0][1];
    hide Concat, Advance, EncodeFrame, Word;
    if BodyThere(chunks) {
      FrameInFront(s);
      FromTwo(s, HeaderLength(chunks));
    }
  }

  lemma EncodeOf(a: byte, b: byte, d: bytes)
    requires |d| == Word(a, b)
    ensures |d| < 0x1_0000 && EncodeFrame(d) == [a, b] + d
  {
    HiLoWord(a, b);
    hide Word, Hi, Lo;
    SmallLength(d);
    hide Low16;
  }

  lemma SmallLength(d: bytes)
    requires |d| < 0x1_0000
    ensures Low16(|d|) == |d|
  {
  }

  lemma FrameInFront(s: bytes)
    requires |s| >= 2 && |s| >= 2 + Word(s[0], s[1])
    ensures var n := Word(s[0], s[1]); n < 0x1_0000 && s == EncodeFrame(s[2..2 + n]) + s[2 + n..]
  {
    HiLoWord(s[0], s[1]);
    hide Word, EncodeFrame;
    ThreeParts(s, Word(s[0], s[1]));
    EncodeOf(s[0], s[1], s[2..2 + Word(s[0], s[1])]);
  }

  lemma FromTwo(s: bytes, n: nat)
    requires 2 + n <= |s|
    ensures s[2..][..n] == s[2..2 + n] && s[2..][n..] == s[2 + n..]
  {
  }

  lemma ThreeParts(s: bytes, n: nat)
    requires 2 + n <= |s|
    ensures |s[2..2 + n]| == n && s == ([s[0], s[1]] + s[2..2 + n]) + s[2 + n..]
  {
  }

  lemma HiLoWord(a: byte, b: byte)
    ensures 0 <= Word(a, b) < 0x1_0000 && Hi(Word(a, b)) == a && Lo(Word(a, b)) == b
  {
  }

  // The client's frame at the front is longer than a packet can carry, and `sendUDPViaRaw` panics on it.
  predicate Oversized(chunks: seq<bytes>)
    requires chunks != [] && |chunks[0]| >= 2
  {
    BodyThere(chunks) && |Body(chunks)| > MAX_PAYLOAD
  }

  /**
   What `forwardUDP` sends on for a stream that arrives in these pieces. A header read that gets one
   byte drops it, and the next read takes what follows for a header. A body over 65507 bytes ends it all.
   */
  function RepliesOf(chunks: seq<bytes>): seq<bytes>
    requires NoEmpty(chunks)
    decreases |Concat(chunks)|
  {
    if chunks == [] then []
    else if |chunks[0]| == 1 then
      assert forall c :: c in chunks[1..] ==> c in chunks;
      RepliesOf(chunks[1..])
    else
      assert chunks[0] in chunks;
      if !BodyThere(chunks) || Oversized(chunks) then []
      else
        BodyFramed(chunks);
        [Body(chunks)] + RepliesOf(AfterBody(chunks))
  }

  /** The process dies in the loop over a stream that arrives in these pieces. */
  predicate Crashes(chunks: seq<bytes>)
    requires NoEmpty(chunks)
    decreases |Concat(chunks)|
  {
    chunks != [] &&
    if |chunks[0]| == 1 then
      assert forall c :: c in chunks[1..] ==> c in chunks;
      Crashes(chunks[1..])
    else
      assert chunks[0] in chunks;
      BodyThere(chunks) && (Oversized(chunks) || (BodyFramed(chunks); Crashes(AfterBody(chunks))))
  }

  /** Every header read gets its two bytes, as long as the process lives. */
  predicate HeadersWhole(chunks: seq<bytes>)
    requires NoEmpty(chunks)
    decreases |Concat(chunks)|
  {
    chunks == []
    || (|chunks[0]| >= 2
        && (BodyThere(chunks) && !Oversized(chunks) ==> (BodyFramed(chunks); HeadersWhole(AfterBody(chunks)))))
  }

  /** The datagrams before the first that is too long for a packet. */
  function Fitting(ds: seq<bytes>): (r: seq<bytes>)
    ensures r <= ds && (forall k :: 0 <= k < |r| ==> |r[k]| <= MAX_PAYLOAD)
    ensures |r| < |ds| ==> |ds[|r|]| > MAX_PAYLOAD
  {
    if ds == [] || |ds[0]| > MAX_PAYLOAD then [] else [ds[0]] + Fitting(ds[1..])
  }

  // ---------- pieces that arrive later ----------

  lemma {:induction false} ConcatJoin(a: seq<bytes>, b: seq<bytes>)
    ensures Concat(a + b) == Concat(a) + Concat(b)
  {
    if a == [] {
      assert a + b == b;
    } else {
      assert (a + b)[1..] == a[1..] + b;
      ConcatJoin(a[1..], b);
      ConcatAssoc(a[0], Concat(a[1..]), Concat(b));
    }
  }

  lemma {:induction false} AdvanceJoin(a: seq<bytes>, b: seq<bytes>, n: nat)
    requires n <= |Concat(a)|
    ensures Advance(a + b, n) == Advance(a, n) + b
    decreases |a|
  {
    if n > 0 {
      assert (a + b)[1..] == a[1..] + b;
      if |a[0]| <= n {
        AdvanceJoin(a[1..], b, n - |a[0]|);
      }
    }
  }

  lemma NoEmptyJoin(a: seq<bytes>, b: seq<bytes>)
    requires NoEmpty(a) && NoEmpty(b)
    ensures NoEmpty(a + b)
  {
  }

  lemma TakeJoin(s: bytes, t: bytes, n: nat)
    requires n <= |s|
    ensures (s + t)[..n] == s[..n]
  {
  }

  // A frame that is there stays there.
  lemma BodyJoin(a: seq<bytes>, b: seq<bytes>)
    requires NoEmpty(a) && a != [] && |a[0]| >= 2 && BodyThere(a)
    ensures BodyThere(a + b) && Body(a + b) == Body(a) && AfterBody(a + b) == AfterBody(a) + b
  {
    var n := HeaderLength(a);
    AdvanceConcat(a, 2);
    AdvanceJoin(a, b, 2);
    ConcatJoin(Advance(a, 2), b);
    AdvanceJoin(Advance(a, 2), b, n);
    hide Advance, Concat, Word;
    TakeJoin(Concat(Advance(a, 2)), Concat(b), n);
  }

  lemma RepliesFrame(a: seq<bytes>, b: seq<bytes>)
    requires NoEmpty(a) && NoEmpty(b) && a != [] && |a[0]| >= 2 && BodyThere(a)
    ensures NoEmpty(a + b) && NoEmpty(AfterBody(a) + b)
    ensures RepliesOf(a + b) == if Oversized(a) then [] else [Body(a)] + RepliesOf(AfterBody(a) + b)
    ensures Crashes(a + b) <==> Oversized(a) || Crashes(AfterBody(a) + b)
  {
    BodyFramed(a);
    BodyJoin(a, b);
    NoEmptyJoin(a, b);
    NoEmptyJoin(AfterBody(a), b);
    hide Body, BodyThere, AfterBody, Concat;
  }

  lemma RepliesShort(a: seq<bytes>, b: seq<bytes>)
    requires NoEmpty(a) && NoEmpty(b) && a != [] && |a[0]| == 1
    ensures NoEmpty(a + b) && NoEmpty(a[1..] + b)
    ensures RepliesOf(a + b) == RepliesOf(a[1..] + b) && Crashes(a + b) == Crashes(a[1..] + b)
  {
    assert forall c :: c in a[1..] ==> c in a;
    NoEmptyJoin(a, b);
    NoEmptyJoin(a[1..], b);
    assert (a + b)[1..] == a[1..] + b;
  }

  // ---------- exactly the client's frames ----------

  // The first frame of a stream whose first piece holds its length.
  lemma FirstFrame(chunks: seq<bytes>)
    requires NoEmpty(chunks) && chunks != [] && |chunks[0]| >= 2
    ensures Frames(Concat(chunks))
         == if BodyThere(chunks) then [Body(chunks)] + Frames(Concat(AfterBody(chunks))) else []
  {
    BodyFramed(chunks);
    if BodyThere(chunks) {
      hide Frames;
      FramesOfEncode(Body(chunks), Concat(AfterBody(chunks)));
    } else {
      AdvanceConcat(chunks, 2);
      assert Concat(chunks)[0] == chunks[0][0] && Concat(chunks)[1] == chunks[0][1];
    }
  }

  /**
   As long as headers are read whole, the replies are the client's frames, in order, up to the first one
   over 65507 bytes; the process dies if and only if there is such a frame.
   */
  lemma {:induction false} WholeHeadersReply(chunks: seq<bytes>)
    requires NoEmpty(chunks) && HeadersWhole(chunks)
    ensures RepliesOf(chunks) == Fitting(Frames(Concat(chunks)))
    ensures Crashes(chunks) <==> Fitting(Frames(Concat(chunks))) != Frames(Concat(chunks))
    decreases |Concat(chunks)|
  {
    if chunks != [] {
      BodyFramed(chunks);
      FirstFrame(chunks);
      hide Frames, Body, BodyThere, AfterBody, Concat;
      if BodyThere(chunks) {
        var rest := Frames(Concat(AfterBody(chunks)));
        assert ([Body(chunks)] + rest)[1..] == rest;
        if !Oversized(chunks) {
          WholeHeadersReply(AfterBody(chunks));
        }
      }
    }
  }

  // The replies never account for more than what arrived, and for less once a byte was dropped.
  lemma {:induction false} RepliesSize(chunks: seq<bytes>)
    requires NoEmpty(chunks)
    ensures |EncodeAll(RepliesOf(chunks))| <= |Concat(chunks)|
    ensures !HeadersWhole(chunks) ==> |EncodeAll(RepliesOf(chunks))| < |Concat(chunks)|
    ensures forall k :: 0 <= k < |RepliesOf(chunks)| ==> |RepliesOf(chunks)[k]| <= MAX_PAYLOAD
    decreases |Concat(chunks)|
  {
    if chunks != [] {
      assert chunks[0] in chunks;
      if |chunks[0]| == 1 {
        assert forall c :: c in chunks[1..] ==> c in chunks;
        RepliesSize(chunks[1..]);
      } else if BodyThere(chunks) && !Oversized(chunks) {
        BodyFramed(chunks);
        RepliesSize(AfterBody(chunks));
        assert ([Body(chunks)] + RepliesOf(AfterBody(chunks)))[1..] == RepliesOf(AfterBody(chunks));
      }
    }
  }

  /** A piece ends after the first n bytes. */
  predicate CutAt(chunks: seq<bytes>, n: nat) {
    n == 0 || (chunks != [] && |chunks[0]| <= n && CutAt(chunks[1..], n - |chunks[0]|))
  }

  /** Neither of the two length bytes of a frame ends a piece without the other. */
  predicate NoLengthCut(chunks: seq<bytes>, ds: seq<bytes>) {
    forall k :: 0 <= k < |ds| ==> !CutAt(chunks, |EncodeAll(ds[..k])| + 1)
  }

  lemma {:induction false} CutAfter(chunks: seq<bytes>, n: nat, m: nat)
    requires NoEmpty(chunks) && m > 0
    ensures CutAt(Advance(chunks, n), m) <==> CutAt(chunks, n + m)
    decreases |chunks|
  {
    if n > 0 && chunks != [] {
      var first, rest := chunks[0], chunks[1..];
      assert forall c :: c in rest ==> c in chunks;
      if |first| <= n {
        CutAfter(rest, n - |first|, m);
      } else {
        assert ([first[n..]] + rest)[1..] == rest;
      }
    }
  }

  // The cuts in the frames after the first.
  lemma NoLengthCutTail(chunks: seq<bytes>, ds: seq<bytes>)
    requires NoEmpty(chunks) && ds != []
    ensures NoLengthCut(chunks, ds)
       <==> !CutAt(chunks, 1) && NoLengthCut(Advance(chunks, |EncodeFrame(ds[0])|), ds[1..])
  {
    var n, rest := |EncodeFrame(ds[0])|, Advance(chunks, |EncodeFrame(ds[0])|);
    assert ds[..0] == [];
    forall k | 0 <= k < |ds| - 1
      ensures CutAt(rest, |EncodeAll(ds[1..][..k])| + 1) <==> CutAt(chunks, |EncodeAll(ds[..k + 1])| + 1)
    {
      assert ds[..k + 1][1..] == ds[1..][..k];
      CutAfter(chunks, n, |EncodeAll(ds[1..][..k])| + 1);
    }
    hide CutAt, EncodeFrame, EncodeAll, Advance;
    if NoLengthCut(chunks, ds) {
      assert !CutAt(chunks, |EncodeAll(ds[..0])| + 1);
    } else {
      var k :| 0 <= k < |ds| && CutAt(chunks, |EncodeAll(ds[..k])| + 1);
      assert k > 0 ==> CutAt(rest, |EncodeAll(ds[1..][..k - 1])| + 1);
    }
  }

  // The frame at the front is the first that was sent.
  lemma FrontFrame(chunks: seq<bytes>, ds: seq<bytes>)
    requires NoEmpty(chunks) && chunks != [] && |chunks[0]| >= 2 && ds != [] && |ds[0]| < 0x1_0000
    requires Concat(chunks) == EncodeAll(ds)
    ensures BodyThere(chunks) && Body(chunks) == ds[0] && Concat(AfterBody(chunks)) == EncodeAll(ds[1..])
    ensures AfterBody(chunks) == Advance(chunks, |EncodeFrame(ds[0])|)
  {
    var s := Concat(chunks);
    FrameHead(ds[0]);
    AdvanceConcat(chunks, 2);
    AdvanceTwice(chunks, 2, |ds[0]|);
    AdvanceConcat(chunks, 2 + |ds[0]|);
    assert s[0] == chunks[0][0] && s[1] == chunks[0][1];
    hide Concat, Advance, EncodeFrame, Word;
    DropConcat(EncodeFrame(ds[0]), EncodeAll(ds[1..]));
    assert s[2..][..|ds[0]|] == EncodeFrame(ds[0])[2..];
  }

  /** The header reads of the loop are whole exactly when no length is cut, of frames that fit a packet. */
  lemma {:induction false} HeadersWholeExact(chunks: seq<bytes>, ds: seq<bytes>)
    requires NoEmpty(chunks) && Concat(chunks) == EncodeAll(ds)
    requires forall k :: 0 <= k < |ds| ==> |ds[k]| <= MAX_PAYLOAD
    ensures HeadersWhole(chunks) <==> NoLengthCut(chunks, ds)
    decreases |ds|
  {
    assert chunks != [] ==> chunks[0] in chunks;
    if ds != [] {
      NoLengthCutTail(chunks, ds);
      if |chunks[0]| >= 2 {
        FrontFrame(chunks, ds);
        BodyFramed(chunks);
        HeadersWholeExact(AfterBody(chunks), ds[1..]);
      }
    }
  }

  /**
   Over any chunking of a client's frames, they are all replied, in order, exactly when none is over 65507
   bytes and no piece ends between the two length bytes of a frame.
   */
  lemma ForwardExact(chunks: seq<bytes>, ds: seq<bytes>)
    requires NoEmpty(chunks) && Concat(chunks) == EncodeAll(ds)
    requires forall k :: 0 <= k < |ds| ==> |ds[k]| < 0x1_0000
    ensures RepliesOf(chunks) == ds <==> (forall k :: 0 <= k < |ds| ==> |ds[k]| <= MAX_PAYLOAD) && NoLengthCut(chunks, ds)
  {
    RepliesSize(chunks);
    FramesRoundTrip(ds, []);
    assert EncodeAll(ds) + [] == EncodeAll(ds);
    assert ds + Frames([]) == ds;
    hide RepliesOf, HeadersWhole, NoLengthCut, Frames, EncodeAll, Concat, Crashes;
    if forall k :: 0 <= k < |ds| ==> |ds[k]| <= MAX_PAYLOAD {
      HeadersWholeExact(chunks, ds);
      if HeadersWhole(chunks) {
        WholeHeadersReply(chunks);
      }
    }
  }

  /** From 65508 bytes on a frame that the client may well send kills the server: nothing of it is replied. */
  lemma OversizedFrameCrashes(d: bytes, more: seq<bytes>)
    requires MAX_PAYLOAD < |d| < 0x1_0000 && NoEmpty(more)
    ensures NoEmpty([EncodeFrame(d)] + more)
    ensures RepliesOf([EncodeFrame(d)] + more) == [] && Crashes([EncodeFrame(d)] + more)
  {
    var chunks := [EncodeFrame(d)] + more;
    FrameHead(d);
    assert chunks[1..] == more;
    assert Concat(chunks) == EncodeFrame(d) + Concat(more);
    BodyFramed(chunks);
    AdvanceConcat(chunks, 2);
    hide Advance, Concat, EncodeFrame, Word;
    assert |Body(chunks)| == |d|;
  }

  // The bytes of a header read come from the first piece.
  lemma FirstPiece(chunks: seq<bytes>, hdr: bytes, rest: bytes)
    requires NoEmpty(chunks) && chunks != [] && Concat(chunks) == hdr + rest
    requires |hdr| == if |chunks[0]| < 2 then |chunks[0]| else 2
    ensures forall k :: 0 <= k < |hdr| ==> hdr[k] == chunks[0][k]
    ensures |hdr| == 1 ==> Advance(chunks, 1) == chunks[1..]
  {
    assert forall k :: 0 <= k < |hdr| ==> hdr[k] == Concat(chunks)[k];
  }

  /**
   The loop of `forwardUDP`, with the packets it hands to the raw socket. It ends with the stream, or
   with the process when a packet cannot be assembled.
   */
  method ForwardLoop(stream: Stream, from: UdpAddr, to: UdpAddr) returns (sent: seq<bytes>, crashed: bool)
    requires stream.Valid()
    modifies stream
    ensures |sent| == |RepliesOf(old(stream.chunks))| && crashed == Crashes(old(stream.chunks))
    ensures forall k :: 0 <= k < |sent| ==> Receive(sent[k]) == Some(Datagram(from, to, RepliesOf(old(stream.chunks))[k]))
  {
    hide Receive, Advance;
    sent, crashed := [], false;
    ghost var all := RepliesOf(stream.chunks);
    ghost var done: seq<bytes> := [];
    while true
      invariant stream.Valid() && all == done + RepliesOf(stream.chunks)
      invariant !crashed && Crashes(stream.chunks) == Crashes(old(stream.chunks))
      invariant |sent| == |done| && forall k :: 0 <= k < |sent| ==> Receive(sent[k]) == Some(Datagram(from, to, done[k]))
      decreases |stream.Pending()|
    {
      ghost var was := stream.chunks;
      var hdr, eof := stream.Read(2);
      if eof {
        break;
      }
      FirstPiece(was, hdr, stream.Pending());
      if |hdr| == 2 {
        var nlen := Word(hdr[0], hdr[1]);
        ghost var body := stream.Pending();
        var buf, ok := stream.ReadFull(nlen);
        if !ok {
          break;
        }
        assert buf == body[..nlen];
        var packet := Assemble(from, to, buf);
        if packet.None? {
          crashed := true;
          break;
        }
        ConcatAssoc(done, [buf], RepliesOf(stream.chunks));
        sent, done := sent + [packet.value[..]], done + [buf];
      }
    }
  }
}
