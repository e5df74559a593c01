/**
 The IPv4/UDP packets `sendUDPViaRaw` (`opennotrd/core/net.go`) assembles, and a receiver that
 checks and parses them as section 3.1 of RFC 791 and RFC 768 describe.
 */
module Packet {
  import opened Basics
  import opened Checksum

  type IPv4 = b: bytes | |b| == 4 witness [0, 0, 0, 0]

  datatype UdpAddr = UdpAddr(ip: IPv4, port: uint16)

  datatype Datagram = Datagram(src: UdpAddr, dst: UdpAddr, payload: bytes)

  const UDP: byte := 17
  const MAX_PAYLOAD: nat := 65507

  function Hi(x: uint16): byte { x / 0x100 }

  function Lo(x: uint16): byte { x % 0x100 }

  lemma HiLo(x: uint16)
    ensures Word(Hi(x), Lo(x)) == x && Word(Hi(x), 0) <= x
  {
  }

  // ---------- the receiver ----------

  /** What the UDP checksum covers besides the UDP datagram itself. */
  function PseudoHeader(p: bytes): bytes
    requires |p| >= 28
  {
    p[12..20] + [0, p[9], p[24], p[25]]
  }

  /** A packet is dropped unless lengths and both checksums are right. */
  function Receive(p: bytes): Option<Datagram> {
    if |p| < 28 || p[0] != 0x45 || Word(p[2], p[3]) != |p| || OnesSum(p[..20], 0) != 0xffff then None
    else if p[9] != UDP || Word(p[24], p[25]) != |p| - 20 then None
    else if OnesSum(PseudoHeader(p) + p[20..], 0) != 0xffff then None
    else Some(Datagram(UdpAddr(p[12..16], Word(p[20], p[21])), UdpAddr(p[16..20], Word(p[22], p[23])), p[28..]))
  }

  // ---------- layout ----------

  function IPFixed(iplen: uint16, csum: uint16): bytes {
    [0x45, 0, Hi(iplen), Lo(iplen), 0, 0, 0x40, 0, 64, UDP, Hi(csum), Lo(csum)]
  }

  function UdpHeader(sport: uint16, dport: uint16, ulen: uint16, csum: uint16): bytes {
    [Hi(sport), Lo(sport), Hi(dport), Lo(dport), Hi(ulen), Lo(ulen), Hi(csum), Lo(csum)]
  }

  function Layout(iplen: uint16, ipc: uint16, ulen: uint16, uc: uint16, d: Datagram): bytes {
    IPFixed(iplen, ipc) + d.src.ip + d.dst.ip + UdpHeader(d.src.port, d.dst.port, ulen, uc) + d.payload
  }

  // The packet while the UDP checksum is computed: of the IP header only the protocol and the
  // addresses are filled in.
  function Draft(ulen: uint16, d: Datagram): bytes {
    [0, 0, 0, 0, 0, 0, 0, 0, 0, UDP, 0, 0] + d.src.ip + d.dst.ip
    + UdpHeader(d.src.port, d.dst.port, ulen, 0) + d.payload
  }

  lemma Words4(a: byte, b: byte, c: byte, d: byte)
    ensures Words([a, b, c, d]) == Word(a, b) + Word(c, d)
  {
    assert [a, b, c, d][2..] == [c, d];
    assert [c, d][2..] == [];
    assert Words([c, d]) == Word(c, d) + Words([]);
  }

  lemma WordsUdpHeader(sport: uint16, dport: uint16, ulen: uint16, csum: uint16)
    ensures Words(UdpHeader(sport, dport, ulen, csum)) == sport + dport + ulen + csum
  {
    var a, b := [Hi(sport), Lo(sport), Hi(dport), Lo(dport)], [Hi(ulen), Lo(ulen), Hi(csum), Lo(csum)];
    assert UdpHeader(sport, dport, ulen, csum) == a + b;
    Words4(Hi(sport), Lo(sport), Hi(dport), Lo(dport));
    Words4(Hi(ulen), Lo(ulen), Hi(csum), Lo(csum));
    WordsConcat(a, b);
  }

  lemma Words12(a: bytes)
    requires |a| == 12
    ensures Words(a) == Word(a[0], a[1]) + Word(a[2], a[3]) + Word(a[4], a[5])
                      + Word(a[6], a[7]) + Word(a[8], a[9]) + Word(a[10], a[11])
  {
    Words4(a[0], a[1], a[2], a[3]);
    Words4(a[4], a[5], a[6], a[7]);
    Words4(a[8], a[9], a[10], a[11]);
    assert a == [a[0], a[1], a[2], a[3]] + ([a[4], a[5], a[6], a[7]] + [a[8], a[9], a[10], a[11]]);
    WordsConcat([a[4], a[5], a[6], a[7]], [a[8], a[9], a[10], a[11]]);
    WordsConcat([a[0], a[1], a[2], a[3]], [a[4], a[5], a[6], a[7]] + [a[8], a[9], a[10], a[11]]);
  }

  lemma WordsFive(a: bytes, b: bytes, c: bytes, d: bytes, e: bytes)
    requires |a| % 2 == |b| % 2 == |c| % 2 == |d| % 2 == 0
    ensures Words(a + b + c + d + e) == Words(a) + Words(b) + Words(c) + Words(d) + Words(e)
  {
    hide Words;
    WordsConcat(a, b);
    WordsConcat(a + b, c);
    WordsConcat(a + b + c, d);
    WordsConcat(a + b + c + d, e);
  }

  lemma WordsDraft(ulen: uint16, d: Datagram)
    ensures Words(Draft(ulen, d))
         == UDP + Words(d.src.ip) + Words(d.dst.ip) + d.src.port + d.dst.port + ulen + Words(d.payload)
  {
    var fixed := [0, 0, 0, 0, 0, 0, 0, 0, 0, UDP, 0, 0];
    Words12(fixed);
    WordsUdpHeader(d.src.port, d.dst.port, ulen, 0);
    WordsFive(fixed, d.src.ip, d.dst.ip, UdpHeader(d.src.port, d.dst.port, ulen, 0), d.payload);
  }

  lemma WordsCovered(iplen: uint16, ipc: uint16, ulen: uint16, uc: uint16, d: Datagram)
    ensures var p := Layout(iplen, ipc, ulen, uc, d);
      Words(PseudoHeader(p) + p[20..]) == Words(Draft(ulen, d)) + ulen + uc
  {
    var p := Layout(iplen, ipc, ulen, uc, d);
    var last, u := [0, UDP, Hi(ulen), Lo(ulen)], UdpHeader(d.src.port, d.dst.port, ulen, uc);
    assert PseudoHeader(p) + p[20..] == d.src.ip + d.dst.ip + last + u + d.payload;
    Words4(0, UDP, Hi(ulen), Lo(ulen));
    WordsUdpHeader(d.src.port, d.dst.port, ulen, uc);
    WordsFive(d.src.ip, d.dst.ip, last, u, d.payload);
    WordsDraft(ulen, d);
  }

  lemma WordsIPHeader(iplen: uint16, ipc: uint16, src: IPv4, dst: IPv4)
    ensures Words(IPFixed(iplen, ipc) + src + dst) == Words(IPFixed(iplen, 0) + src + dst) + ipc
  {
    Words12(IPFixed(iplen, ipc));
    Words12(IPFixed(iplen, 0));
    WordsFive(IPFixed(iplen, ipc), src, dst, [], []);
    WordsFive(IPFixed(iplen, 0), src, dst, [], []);
    assert IPFixed(iplen, ipc) + src + dst + [] + [] == IPFixed(iplen, ipc) + src + dst;
    assert IPFixed(iplen, 0) + src + dst + [] + [] == IPFixed(iplen, 0) + src + dst;
  }

  lemma HeaderSumsToOnes(iplen: uint16, ipc: uint16, src: IPv4, dst: IPv4)
    requires ipc == Complement(Folded(Words(IPFixed(iplen, 0) + src + dst)))
    ensures OnesSum(IPFixed(iplen, ipc) + src + dst, 0) == 0xffff
  {
    WordsIPHeader(iplen, ipc, src, dst);
    hide Words, OnesSum, Folded, Complement, IPFixed;
    FoldedIsOnesSum(IPFixed(iplen, ipc) + src + dst, 0);
    ComplementVerifies(Words(IPFixed(iplen, 0) + src + dst));
  }

  lemma CoveredSumsToOnes(iplen: uint16, ipc: uint16, ulen: uint16, uc: uint16, d: Datagram)
    requires uc == Complement(Folded(Words(Draft(ulen, d)) + ulen))
    ensures var p := Layout(iplen, ipc, ulen, uc, d); OnesSum(PseudoHeader(p) + p[20..], 0) == 0xffff
  {
    WordsCovered(iplen, ipc, ulen, uc, d);
    hide Words, OnesSum, Folded, Complement, Draft;
    var p := Layout(iplen, ipc, ulen, uc, d);
    FoldedIsOnesSum(PseudoHeader(p) + p[20..], 0);
    ComplementVerifies(Words(Draft(ulen, d)) + ulen);
  }

  lemma LayoutParts(iplen: uint16, ipc: uint16, ulen: uint16, uc: uint16, d: Datagram)
    ensures var p := Layout(iplen, ipc, ulen, uc, d);
      && |p| == 28 + |d.payload| && p[..20] == IPFixed(iplen, ipc) + d.src.ip + d.dst.ip
      && p[12..16] == d.src.ip && p[16..20] == d.dst.ip
      && p[20..28] == UdpHeader(d.src.port, d.dst.port, ulen, uc) && p[28..] == d.payload
  {
  }

  /** A packet with complement checksums is accepted, and the receiver gets addresses and payload back. */
  lemma ComplementPacketReceived(ipc: uint16, uc: uint16, d: Datagram)
    requires |d.payload| <= MAX_PAYLOAD
    requires uc == Complement(Folded(Words(Draft(8 + |d.payload|, d)) + 8 + |d.payload|))
    requires ipc == Complement(Folded(Words(IPFixed(28 + |d.payload|, 0) + d.src.ip + d.dst.ip)))
    ensures Receive(Layout(28 + |d.payload|, ipc, 8 + |d.payload|, uc, d)) == Some(d)
  {
    var iplen: uint16, ulen: uint16 := 28 + |d.payload|, 8 + |d.payload|;
    var p := Layout(iplen, ipc, ulen, uc, d);
    HeaderSumsToOnes(iplen, ipc, d.src.ip, d.dst.ip);
    CoveredSumsToOnes(iplen, ipc, ulen, uc, d);
    LayoutParts(iplen, ipc, ulen, uc, d);
    HiLo(iplen);
    HiLo(ulen);
    HiLo(d.src.port);
    HiLo(d.dst.port);
    hide Words, OnesSum, Folded, Complement, Draft, Layout, PseudoHeader, Hi, Lo, Word;
    var u := UdpHeader(d.src.port, d.dst.port, ulen, uc);
    assert p[0] == 0x45 && p[2] == Hi(iplen) && p[3] == Lo(iplen) && p[9] == UDP by {
      assert forall k :: 0 <= k < 12 ==> p[k] == p[..20][k] == IPFixed(iplen, ipc)[k];
    }
    assert forall k :: 20 <= k < 28 ==> p[k] == p[20..28][k - 20] == u[k - 20];
    assert p[20] == u[0] && p[21] == u[1] && p[22] == u[2] && p[23] == u[3] && p[24] == u[4] && p[25] == u[5];
  }

  // ---------- the sender ----------

  /**
   The packet byte by byte: lengths, ports and checksums are big-endian, the address of the source comes
   before that of the destination, and the protocol is 17.
   */
  lemma PacketBytes(iplen: uint16, ipc: uint16, ulen: uint16, uc: uint16, d: Datagram)
    ensures var p := Layout(iplen, ipc, ulen, uc, d);
      && |p| == 28 + |d.payload| && p[0] == 0x45 && p[1] == 0 && p[8] == 64 && p[9] == 17
      && 256 * p[2] as int + p[3] as int == iplen && p[4] == p[5] == 0 && p[6] == 0x40 && p[7] == 0
      && 256 * p[10] as int + p[11] as int == ipc
      && p[12..16] == d.src.ip && p[16..20] == d.dst.ip
      && 256 * p[20] as int + p[21] as int == d.src.port && 256 * p[22] as int + p[23] as int == d.dst.port
      && 256 * p[24] as int + p[25] as int == ulen && 256 * p[26] as int + p[27] as int == uc && p[28..] == d.payload
  {
  }

  lemma Pieces(p: bytes)
    requires |p| >= 28
    ensures p == p[..12] + p[12..16] + p[16..20] + p[20..28] + p[28..]
  {
  }

  /** The protocol, addresses, ports, length and payload go in before the UDP checksum is computed. */
  method FillDraft(data: array<byte>, ulen: uint16, src: UdpAddr, dst: UdpAddr, payload: bytes)
    requires data.Length == 28 + |payload| && forall k :: 0 <= k < data.Length ==> data[k] == 0
    modifies data
    ensures data[..] == Draft(ulen, Datagram(src, dst, payload))
  {
    assert Hi(0) == 0 && Lo(0) == 0;
    hide Hi, Lo;
    data[9] := UDP;
    forall k | 0 <= k < 4 { data[12 + k] := src.ip[k]; }
    forall k | 0 <= k < 4 { data[16 + k] := dst.ip[k]; }
    assert data[..12] == [0, 0, 0, 0, 0, 0, 0, 0, 0, UDP, 0, 0];
    assert data[12..16] == src.ip && data[16..20] == dst.ip;
    ghost var head := data[..20];
    data[20] := Hi(src.port);
    data[21] := Lo(src.port);
    data[22] := Hi(dst.port);
    data[23] := Lo(dst.port);
    data[24] := Hi(ulen);
    data[25] := Lo(ulen);
    assert data[..20] == head && data[20..28] == UdpHeader(src.port, dst.port, ulen, 0);
    head := data[..28];
    forall k | 0 <= k < |payload| { data[28 + k] := payload[k]; }
    assert data[..28] == head && data[28..] == payload;
    Pieces(data[..]);
  }

  // The stores into the two headers, but for the IP checksum.
  function Filled(p: bytes, iplen: uint16, uc: uint16): bytes
    requires |p| >= 28
  {
    p[26 := Hi(uc)][27 := Lo(uc)][0 := 0x45][2 := Hi(iplen)][3 := Lo(iplen)][6 := 0x40][8 := 64]
  }

  lemma FilledDraft(iplen: uint16, ulen: uint16, uc: uint16, d: Datagram)
    ensures Filled(Draft(ulen, d), iplen, uc) == Layout(iplen, 0, ulen, uc, d)
  {
    var p := Draft(ulen, d);
    var q := Filled(p, iplen, uc);
    DraftPieces(p, ulen, d);
    assert p[0..12][1] == p[1] && p[0..12][9] == UDP;
    assert q[..12] == IPFixed(iplen, 0);
    assert q[12..16] == p[12..16] && q[16..20] == p[16..20] && q[28..] == p[28..];
    assert q[20..28] == p[20..28][6 := Hi(uc)][7 := Lo(uc)];
    Pieces(q);
  }

  lemma ChecksumStored(iplen: uint16, ipc: uint16, ulen: uint16, uc: uint16, d: Datagram)
    ensures Layout(iplen, 0, ulen, uc, d)[10 := Hi(ipc)][11 := Lo(ipc)] == Layout(iplen, ipc, ulen, uc, d)
  {
    var p := Layout(iplen, 0, ulen, uc, d);
    var q := p[10 := Hi(ipc)][11 := Lo(ipc)];
    assert q[..12] == p[..12][10 := Hi(ipc)][11 := Lo(ipc)];
    assert q[12..] == p[12..];
    assert q == q[..12] + q[12..];
  }

  /** The rest of the two headers; `ipc` is computed over the IP header without itself. */
  method FillHeaders(data: array<byte>, iplen: uint16, ulen: uint16, uc: uint16, ghost d: Datagram) returns (ipc: uint16)
    requires data.Length == 28 + |d.payload| && data[..] == Draft(ulen, d)
    modifies data
    ensures ipc == Complement(Folded(Words(IPFixed(iplen, 0) + d.src.ip + d.dst.ip)))
    ensures data[..] == Layout(iplen, ipc, ulen, uc, d)
  {
    hide Draft, Words, Hi, Lo, Complement, Folded, Layout, IPFixed;
    FilledDraft(iplen, ulen, uc, d);
    LayoutParts(iplen, 0, ulen, uc, d);
    data[26] := Hi(uc);
    data[27] := Lo(uc);
    data[0] := 0x45;
    data[2] := Hi(iplen);
    data[3] := Lo(iplen);
    data[6] := 0x40;
    data[8] := 64;
    assert data[..20] == data[..][..20];
    ipc := CheckSum(data[..20]);
    data[10] := Hi(ipc);
    data[11] := Lo(ipc);
    ChecksumStored(iplen, ipc, ulen, uc, d);
  }

  lemma DraftPieces(p: bytes, ulen: uint16, d: Datagram)
    requires p == Draft(ulen, d)
    ensures p[..12] == [0, 0, 0, 0, 0, 0, 0, 0, 0, UDP, 0, 0] && p[12..16] == d.src.ip && p[16..20] == d.dst.ip
    ensures p[20..28] == UdpHeader(d.src.port, d.dst.port, ulen, 0) && p[28..] == d.payload
  {
  }

  lemma LayoutFields(iplen: uint16, ipc: uint16, ulen: uint16, uc: uint16, d: Datagram)
    ensures var p := Layout(iplen, ipc, ulen, uc, d);
      && |p| >= 28 && p[1] == p[4] == p[5] == p[7] == 0 && p[6] == 0x40 && p[8] == 64
      && Word(p[26], p[27]) == uc
  {
  }

  // `uint16(n)`
  function Low16(n: nat): uint16 {
    n % 0x1_0000
  }

  /** The wrapped length leaves room for the headers exactly when the payload, likewise wrapped, has at most 65507 bytes. */
  lemma RoomExact(n: nat)
    ensures Low16(28 + n) >= 28 <==> Low16(n) <= MAX_PAYLOAD
    ensures Low16(n) <= MAX_PAYLOAD ==> Low16(28 + n) == 28 + Low16(n) && Low16(8 + n) == 8 + Low16(n)
  {
    if Low16(n) <= MAX_PAYLOAD {
      ModUnique(28 + n, n / 0x1_0000, 28 + n % 0x1_0000, 0x1_0000);
      ModUnique(8 + n, n / 0x1_0000, 8 + n % 0x1_0000, 0x1_0000);
    } else {
      ModUnique(28 + n, n / 0x1_0000 + 1, 28 + n % 0x1_0000 - 0x1_0000, 0x1_0000);
    }
  }

  // The stores into a buffer of the right size.
  method FillPacket(data: array<byte>, iplen: uint16, ulen: uint16, src: UdpAddr, dst: UdpAddr, payload: bytes)
    requires data.Length == iplen == 28 + |payload| && ulen == 8 + |payload| && data[..] == seq(data.Length, _ => 0)
    modifies data
    ensures Receive(data[..]) == Some(Datagram(src, dst, payload))
    ensures data[0] == 0x45 && data[9] == 17 && 256 * data[2] as int + data[3] as int == iplen
    ensures 256 * data[24] as int + data[25] as int == ulen
    ensures data[12..16] == src.ip && data[16..20] == dst.ip && data[28..] == payload
    ensures 256 * data[20] as int + data[21] as int == src.port && 256 * data[22] as int + data[23] as int == dst.port
    // fields the receiver does not look at: don't fragment, 64 hops, and a checksum is present
    ensures data[1] == data[4] == data[5] == data[7] == 0 && data[6] == 0x40 && data[8] == 64
    ensures Word(data[26], data[27]) != 0
  {
    ghost var d := Datagram(src, dst, payload);
    hide Words, Folded, Complement, Receive, Draft, Layout;
    assert forall k :: 0 <= k < data.Length ==> data[k] == data[..][k];
    FillDraft(data, ulen, src, dst, payload);
    var sum := ChecksumAdd(data[..], ulen);
    var uc := ChecksumWrapper(sum);
    var ipc := FillHeaders(data, iplen, ulen, uc, d);
    ComplementPacketReceived(ipc, uc, d);
    LayoutFields(iplen, ipc, ulen, uc, d);
    PacketBytes(iplen, ipc, ulen, uc, d);
    assert data[..][12..16] == data[12..16] && data[..][16..20] == data[16..20] && data[..][28..] == data[28..];
  }

  // What `copy` copies is the payload exactly when its length did not wrap.
  lemma CarriedExact(payload: bytes)
    ensures Low16(|payload|) <= |payload|
    ensures Low16(|payload|) <= MAX_PAYLOAD && payload[..Low16(|payload|)] == payload <==> |payload| <= MAX_PAYLOAD
  {
  }

  /**
   `sendUDPViaRaw` up to the system call, or None where an index is out of range and the original
   panics. The test for too large a packet looks at the length after it has wrapped, so it never fires.
   */
  method Assemble(src: UdpAddr, dst: UdpAddr, payload: bytes) returns (packet: Option<array<byte>>)
    ensures packet.Some? <==> Low16(|payload|) <= MAX_PAYLOAD
    ensures packet.Some? ==>
      var data := packet.value;
      && fresh(data) && data.Length >= 28
      && Receive(data[..]) == Some(Datagram(src, dst, payload[..Low16(|payload|)]))
      && data[1] == data[4] == data[5] == data[7] == 0 && data[6] == 0x40 && data[8] == 64
      && Word(data[26], data[27]) != 0
    ensures (packet.Some? && Receive(packet.value[..]) == Some(Datagram(src, dst, payload))) <==> |payload| <= MAX_PAYLOAD
  {
    RoomExact(|payload|);
    CarriedExact(payload);
    hide Low16, Receive, Word;
    var iplen, ulen := Low16(28 + |payload|), Low16(8 + |payload|);
    var data := new byte[iplen](_ => 0);
    if data.Length < 28 {
      return None;
    }
    // `copy` stops where the buffer is full
    FillPacket(data, iplen, ulen, src, dst, payload[..data.Length - 28]);
    packet := Some(data);
  }
}
