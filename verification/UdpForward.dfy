/**
 The UDP tunnel of `opennotrd/core/udpforward.go`: the receive loop `Serve`, one `forwardUDP` per
 stream and the recycler share a table of sessions. Each action below is one uninterrupted piece of
 one goroutine: a critical section, or one read or write. A run is any sequence of enabled actions, so
 a property of all runs is a property of every interleaving.
 */
module UdpForward {
  import opened Basics
  import opened Packet
  import opened Framing

  // The key of `udpSessions`: source and original destination of a datagram. The original prints the
  // four parts with ':' between them, which dotted addresses and ports do not contain.
  datatype Flow = Flow(src: UdpAddr, dst: UdpAddr)

  datatype Arrival = Arrival(flow: Flow, payload: bytes)

  type StreamId = nat

  datatype Session = Session(stream: StreamId, lastActive: nat)

  /**
   A stream to a client. `written` is what the peer can read. `flow`, `headed` and `sent` record its
   history: the flow and the arrival it was opened for, whether its header went out, and which arrivals followed.
   */
  datatype Tunnel = Tunnel(
    flow: Flow, openedFor: nat, written: bytes, failed: bool, closed: bool, headed: bool, sent: seq<nat>)

  // Where `Serve` is: blocked in the read, or at work on the last arrival.
  datatype ServeAt =
    | Reading
    | LookingUp
    | Opening
    | Inserting(stream: StreamId, created: nat)
    | Heading(stream: StreamId)
    | Sending(stream: StreamId)

  // `forwardUDP(stream, key, fromaddr, toaddr)`; `leaving` once its deferred calls have begun.
  datatype Forwarder = Forwarder(key: Flow, from: UdpAddr, to: UdpAddr, leaving: bool)

  /**
   What a client sends on a stream: the pieces that are still to be read; and for its history all bytes and
   pieces so far, and whether a header read once got a single byte.
   */
  datatype Inbound = Inbound(received: bytes, pieces: seq<bytes>, chunks: seq<bytes>, shortRead: bool)

  datatype Reply = Reply(stream: StreamId, packet: Datagram)

  datatype State = State(
    arrivals: seq<Arrival>,
    at: ServeAt,
    sessions: map<Flow, Session>,
    tunnels: map<StreamId, Tunnel>,
    forwarders: map<StreamId, Forwarder>,
    inbound: map<StreamId, Inbound>,
    replies: seq<Reply>,
    dropped: set<nat>,  // history: the arrivals given up, or lost to a failed write
    lastUsed: map<Flow, nat>,  // history: when a session of the flow was made, found or replied to
    now: nat,
    crashed: bool)      // a goroutine has panicked, and the process is gone

  // What the model leaves open: the JSON body of a proxy header, and the session timeout.
  datatype Config = Config(header: Flow -> bytes, timeout: nat)

  datatype Action =
    | Tick
    | Arrive(datagram: Arrival)
    | LookUp
    | GiveUp
    | Open(stream: StreamId)
    | Insert
    | WriteHeader
    | FailHeader(part: bytes)
    | WriteDatagram
    | FailDatagram(part: bytes)
    | ClientWrites(stream: StreamId, chunk: bytes)
    | SendReply(stream: StreamId)
    | Crash(stream: StreamId)
    | ReadShort(stream: StreamId)
    | Touch(stream: StreamId)
    | Forget(stream: StreamId)
    | Close(stream: StreamId)
    | Recycle(removed: set<Flow>, until: nat)

  const Initial := State([], Reading, map[], map[], map[], map[], [], {}, map[], 0, false)

  predicate Current(s: State) {
    s.at != Reading && s.arrivals != []
  }

  function CurrentFlow(s: State): Flow
    requires Current(s)
  {
    s.arrivals[|s.arrivals| - 1].flow
  }

  // A session the recycler keeps when it looks at it at this time.
  predicate Alive(c: Config, now: nat, x: Session) {
    now - x.lastActive <= c.timeout
  }

  // The forwarder of the stream is in its loop, and the next header read finds n bytes or more.
  predicate HeaderThere(s: State, id: StreamId, n: nat) {
    && id in s.forwarders && !s.forwarders[id].leaving
    && id in s.inbound && s.inbound[id].chunks != [] && |s.inbound[id].chunks[0]| >= n
  }

  function Touched(sessions: map<Flow, Session>, key: Flow, now: nat): map<Flow, Session> {
    if key in sessions then sessions[key := sessions[key].(lastActive := now)] else sessions
  }

  function Wrote(t: Tunnel, more: bytes): Tunnel {
    t.(written := t.written + more)
  }

  const NothingYet := Inbound([], [], [], false)

  // One more piece from the client.
  function More(i: Inbound, chunk: bytes): Inbound {
    i.(received := i.received + chunk, pieces := i.pieces + [chunk], chunks := i.chunks + [chunk])
  }

  predicate Enabled(c: Config, s: State, a: Action) {
    !s.crashed &&
    match a
    case Tick => true
    case Arrive(d) => s.at == Reading && |d.payload| <= MAX_PAYLOAD
    case LookUp => s.at == LookingUp && Current(s)
    case GiveUp => s.at == Opening && Current(s)
    case Open(id) => s.at == Opening && Current(s) && id !in s.tunnels
    case Insert => s.at.Inserting? && Current(s)
    case WriteHeader => s.at.Heading? && Current(s) && s.at.stream in s.tunnels && !s.tunnels[s.at.stream].closed
    case FailHeader(_) => s.at.Heading? && Current(s) && s.at.stream in s.tunnels
    case WriteDatagram => s.at.Sending? && Current(s) && s.at.stream in s.tunnels && !s.tunnels[s.at.stream].closed
    case FailDatagram(_) => s.at.Sending? && Current(s) && s.at.stream in s.tunnels
    case ClientWrites(id, chunk) => id in s.tunnels && chunk != []
    case SendReply(id) => HeaderThere(s, id, 2) && BodyThere(s.inbound[id].chunks) && !Oversized(s.inbound[id].chunks)
    case Crash(id) => HeaderThere(s, id, 2) && Oversized(s.inbound[id].chunks)
    case ReadShort(id) => HeaderThere(s, id, 1) && |s.inbound[id].chunks[0]| == 1
    case Touch(id) => id in s.forwarders && !s.forwarders[id].leaving
    case Forget(id) => id in s.forwarders && !s.forwarders[id].leaving
    case Close(id) => id in s.forwarders && s.forwarders[id].leaving && id in s.tunnels
    case Recycle(removed, until) =>
      && s.now <= until
      && (forall k :: k in removed ==> k in s.sessions && !Alive(c, until, s.sessions[k]))
      && (forall k :: k in s.sessions && k !in removed ==> Alive(c, s.now, s.sessions[k]))
  }

  function Apply(c: Config, s: State, a: Action): State
    requires Enabled(c, s, a)
  {
    match a
    case Tick => s.(now := s.now + 1)
    // lines 133-148
    case Arrive(d) => s.(arrivals := s.arrivals + [d], at := LookingUp)
    // lines 150-156
    case LookUp =>
      var key := CurrentFlow(s);
      if key in s.sessions
      then s.(sessions := Touched(s.sessions, key, s.now), at := Sending(s.sessions[key].stream),
              lastUsed := s.lastUsed[key := s.now])
      else s.(at := Opening)
    // lines 157-167: no session for the address, or the stream cannot be opened
    case GiveUp => s.(dropped := s.dropped + {|s.arrivals| - 1}, at := Reading)
    case Open(id) =>
      s.(tunnels := s.tunnels[id := Tunnel(CurrentFlow(s), |s.arrivals| - 1, [], false, false, false, [])],
         at := Inserting(id, s.now), lastUsed := s.lastUsed[CurrentFlow(s) := s.now])
    // lines 170-172
    case Insert =>
      s.(sessions := s.sessions[CurrentFlow(s) := Session(s.at.stream, s.at.created)], at := Heading(s.at.stream))
    // lines 174-184
    case WriteHeader =>
      var id, key := s.at.stream, CurrentFlow(s);
      var t := Wrote(s.tunnels[id], EncodeFrame(c.header(key)));
      s.(tunnels := s.tunnels[id := t.(headed := true)],
         forwarders := s.forwarders[id := Forwarder(key, key.dst, key.src, false)],
         at := Sending(id))
    case FailHeader(part) =>
      var t := Wrote(s.tunnels[s.at.stream], part);
      s.(tunnels := s.tunnels[s.at.stream := t.(failed := true)],
         dropped := s.dropped + {|s.arrivals| - 1}, at := Reading)
    // lines 187-195
    case WriteDatagram =>
      var id, last := s.at.stream, |s.arrivals| - 1;
      var t := Wrote(s.tunnels[id], EncodeFrame(s.arrivals[last].payload));
      s.(tunnels := s.tunnels[id := t.(sent := t.sent + [last])], at := Reading)
    case FailDatagram(part) =>
      var t := Wrote(s.tunnels[s.at.stream], part);
      s.(tunnels := s.tunnels[s.at.stream := t.(failed := true)],
         dropped := s.dropped + {|s.arrivals| - 1}, at := Reading)
    case ClientWrites(id, chunk) =>
      var i := if id in s.inbound then s.inbound[id] else NothingYet;
      s.(inbound := s.inbound[id := More(i, chunk)])
    // lines 211-236: header and body are read and sent on
    case SendReply(id) =>
      var i, f := s.inbound[id], s.forwarders[id];
      s.(inbound := s.inbound[id := i.(chunks := AfterBody(i.chunks))],
         replies := s.replies + [Reply(id, Datagram(f.from, f.to, Body(i.chunks)))])
    // line 233: `sendUDPViaRaw` panics
    case Crash(_) => s.(crashed := true)
    // lines 211-219: one byte, which is dropped
    case ReadShort(id) =>
      var i := s.inbound[id];
      s.(inbound := s.inbound[id := i.(chunks := i.chunks[1..], shortRead := true)])
    // lines 238-243
    case Touch(id) =>
      var key := s.forwarders[id].key;
      if key in s.sessions
      then s.(sessions := Touched(s.sessions, key, s.now), lastUsed := s.lastUsed[key := s.now])
      else s
    // lines 203-207: the first deferred call
    case Forget(id) =>
      s.(sessions := s.sessions - {s.forwarders[id].key},
         forwarders := s.forwarders[id := s.forwarders[id].(leaving := true)])
    // line 202: the last deferred call
    case Close(id) =>
      s.(tunnels := s.tunnels[id := s.tunnels[id].(closed := true)], forwarders := s.forwarders - {id})
    // lines 250-257
    case Recycle(removed, until) => s.(sessions := s.sessions - removed, now := until)
  }

  // ---------- what every interleaving keeps ----------

  function Payloads(arrivals: seq<Arrival>, sent: seq<nat>): seq<bytes>
    requires forall k :: 0 <= k < |sent| ==> sent[k] < |arrivals|
  {
    seq(|sent|, k requires 0 <= k < |sent| => arrivals[sent[k]].payload)
  }

  /** `sent` picks arrivals of one flow, in the order in which they arrived and none twice. */
  predicate InOrder(arrivals: seq<Arrival>, flow: Flow, sent: seq<nat>) {
    && (forall k :: 0 <= k < |sent| ==> sent[k] < |arrivals| && arrivals[sent[k]].flow == flow)
    && (forall j, k :: 0 <= j < k < |sent| ==> sent[j] < sent[k])
  }

  /** An unfailed stream carries the header of its flow and then datagrams of its flow, and nothing else. */
  predicate Carries(c: Config, arrivals: seq<Arrival>, t: Tunnel) {
    && InOrder(arrivals, t.flow, t.sent)
    && (!t.failed && !t.headed ==> t.sent == [] && t.written == [])
    && (!t.failed && t.headed ==>
          t.written == EncodeFrame(c.header(t.flow)) + EncodeAll(Payloads(arrivals, t.sent)))
  }

  predicate TunnelsOk(c: Config, s: State) {
    forall id :: id in s.tunnels ==> Carries(c, s.arrivals, s.tunnels[id])
  }

  // No arrival goes out on two streams.
  predicate NoDuplicates(s: State) {
    forall i, j, x :: i in s.tunnels && j in s.tunnels && i != j && x in s.tunnels[i].sent ==> x !in s.tunnels[j].sent
  }

  predicate SessionsOk(s: State) {
    forall k :: k in s.sessions ==>
      && s.sessions[k].stream in s.tunnels && s.tunnels[s.sessions[k].stream].flow == k
      && (s.tunnels[s.sessions[k].stream].headed || s.tunnels[s.sessions[k].stream].failed
          || s.at == Heading(s.sessions[k].stream))
  }

  predicate ForwardersOk(s: State) {
    forall id :: id in s.forwarders ==>
      && id in s.tunnels && s.forwarders[id].key == s.tunnels[id].flow
      && s.forwarders[id].from == s.tunnels[id].flow.dst && s.forwarders[id].to == s.tunnels[id].flow.src
  }

  /** A reply fits a packet, leaves with the flow's original destination as its source, and goes back to its source. */
  predicate RepliesOk(s: State) {
    forall k :: 0 <= k < |s.replies| ==>
      && s.replies[k].stream in s.tunnels
      && s.replies[k].packet.src == s.tunnels[s.replies[k].stream].flow.dst
      && s.replies[k].packet.dst == s.tunnels[s.replies[k].stream].flow.src
      && |s.replies[k].packet.payload| <= MAX_PAYLOAD
  }

  // The payloads of the replies that came from one stream.
  function RepliesOn(replies: seq<Reply>, id: StreamId): seq<bytes>
    decreases |replies|
  {
    if replies == [] then []
    else
      var last, before := replies[|replies| - 1], RepliesOn(replies[..|replies| - 1], id);
      if last.stream == id then before + [last.packet.payload] else before
  }

  /** As long as no header read was short, a client's bytes are the frames replied and those still to be read. */
  ghost predicate Heard(i: Inbound, replied: seq<bytes>) {
    && NoEmpty(i.chunks)
    && (forall k :: 0 <= k < |replied| ==> |replied[k]| < 0x1_0000)
    && (!i.shortRead ==> i.received == EncodeAll(replied) + Concat(i.chunks))
  }

  ghost predicate InboundOk(s: State) {
    && (forall id :: id in s.inbound ==> Heard(s.inbound[id], RepliesOn(s.replies, id)))
    && (forall id :: id !in s.inbound ==> RepliesOn(s.replies, id) == [])
  }

  // Only `Serve` inserts, so a key it has missed stays missing until it inserts it.
  predicate ServeOk(s: State) {
    && (s.at != Reading ==>
        s.arrivals != [] && forall id :: id in s.tunnels ==> |s.arrivals| - 1 !in s.tunnels[id].sent)
    && match s.at
       case Reading => true
       case LookingUp => true
       case Opening => Current(s) && CurrentFlow(s) !in s.sessions
       case Inserting(id, _) =>
         && Current(s) && CurrentFlow(s) !in s.sessions
         && id in s.tunnels && s.tunnels[id].flow == CurrentFlow(s)
         && !s.tunnels[id].headed && !s.tunnels[id].failed
       case Heading(id) =>
         && Current(s) && id in s.tunnels && s.tunnels[id].flow == CurrentFlow(s)
         && !s.tunnels[id].headed && !s.tunnels[id].failed
       case Sending(id) =>
         && Current(s) && id in s.tunnels && s.tunnels[id].flow == CurrentFlow(s)
         && (s.tunnels[id].headed || s.tunnels[id].failed)
  }

  predicate ArrivalsOk(s: State) {
    forall k :: 0 <= k < |s.arrivals| ==> |s.arrivals[k].payload| <= MAX_PAYLOAD
  }

  ghost predicate Inv(c: Config, s: State) {
    && TunnelsOk(c, s) && NoDuplicates(s) && SessionsOk(s) && ForwardersOk(s) && RepliesOk(s) && ServeOk(s)
    && ArrivalsOk(s) && InboundOk(s)
  }

  lemma InitialInv(c: Config)
    ensures Inv(c, Initial)
  {
  }

  // A later arrival does not change what a stream carries.
  lemma CarriesLater(c: Config, arrivals: seq<Arrival>, more: Arrival, t: Tunnel)
    requires Carries(c, arrivals, t)
    ensures Carries(c, arrivals + [more], t)
  {
    assert Payloads(arrivals + [more], t.sent) == Payloads(arrivals, t.sent);
  }

  lemma CarriesSent(c: Config, arrivals: seq<Arrival>, t: Tunnel)
    requires Carries(c, arrivals, t) && (t.headed || t.failed)
    requires arrivals != [] && arrivals[|arrivals| - 1].flow == t.flow && |arrivals| - 1 !in t.sent
    ensures var last := |arrivals| - 1;
      Carries(c, arrivals, t.(written := t.written + EncodeFrame(arrivals[last].payload), sent := t.sent + [last]))
  {
    var last := |arrivals| - 1;
    var sent := t.sent + [last];
    assert forall k :: 0 <= k < |t.sent| ==> t.sent[k] in t.sent;
    assert Payloads(arrivals, sent) == Payloads(arrivals, t.sent) + [arrivals[last].payload];
    EncodeAllSnoc(Payloads(arrivals, t.sent), arrivals[last].payload);
    ConcatAssoc(EncodeFrame(c.header(t.flow)), EncodeAll(Payloads(arrivals, t.sent)), EncodeFrame(arrivals[last].payload));
  }

  lemma CarriesHeader(c: Config, arrivals: seq<Arrival>, t: Tunnel)
    requires Carries(c, arrivals, t) && !t.headed && !t.failed
    ensures Carries(c, arrivals, t.(written := t.written + EncodeFrame(c.header(t.flow)), headed := true))
  {
    assert Payloads(arrivals, t.sent) == [];
    assert EncodeFrame(c.header(t.flow)) + [] == EncodeFrame(c.header(t.flow));
    assert [] + EncodeFrame(c.header(t.flow)) == EncodeFrame(c.header(t.flow));
  }

  // ---------- the parts of a step ----------

  // The step from s to t changes one tunnel, to u, and neither arrivals, table nor replies.
  ghost predicate OneTunnel(s: State, t: State, id: StreamId, u: Tunnel) {
    && id in s.tunnels && u.flow == s.tunnels[id].flow && t.tunnels == s.tunnels[id := u]
    && t.arrivals == s.arrivals && t.sessions == s.sessions && t.replies == s.replies && t.inbound == s.inbound
  }

  lemma TunnelsKept(c: Config, s: State, t: State, id: StreamId, u: Tunnel)
    requires TunnelsOk(c, s) && OneTunnel(s, t, id, u) && Carries(c, s.arrivals, u)
    ensures TunnelsOk(c, t)
  {
    hide Carries;
  }

  lemma SentKept(s: State, t: State, id: StreamId, u: Tunnel)
    requires NoDuplicates(s) && OneTunnel(s, t, id, u) && u.sent == s.tunnels[id].sent
    ensures NoDuplicates(t)
  {
  }

  // The last arrival goes out on stream id, and on no other before.
  lemma SentOnce(s: State, t: State, id: StreamId, u: Tunnel)
    requires NoDuplicates(s) && OneTunnel(s, t, id, u)
    requires s.arrivals != [] && u.sent == s.tunnels[id].sent + [|s.arrivals| - 1]
    requires forall j :: j in s.tunnels ==> |s.arrivals| - 1 !in s.tunnels[j].sent
    ensures NoDuplicates(t)
  {
  }

  // A write to stream id, which is headed or failed now.
  lemma TableKept(s: State, t: State, id: StreamId, u: Tunnel)
    requires SessionsOk(s) && OneTunnel(s, t, id, u) && (u.headed || u.failed)
    requires s.at == Heading(id) || s.at == Sending(id)
    ensures SessionsOk(t)
  {
  }

  lemma FlowsKept(s: State, t: State, id: StreamId, u: Tunnel)
    requires RepliesOk(s) && ForwardersOk(s) && OneTunnel(s, t, id, u)
    ensures RepliesOk(t)
    ensures t.forwarders == s.forwarders ==> ForwardersOk(t)
  {
  }

  lemma ForwarderStarts(s: State, t: State, id: StreamId, u: Tunnel)
    requires ForwardersOk(s) && OneTunnel(s, t, id, u)
    requires t.forwarders == s.forwarders[id := Forwarder(u.flow, u.flow.dst, u.flow.src, false)]
    ensures ForwardersOk(t)
  {
  }

  lemma InboundKept(s: State, t: State)
    requires InboundOk(s) && t.inbound == s.inbound && t.replies == s.replies
    ensures InboundOk(t)
  {
  }

  lemma TunnelsSame(c: Config, s: State, t: State)
    requires TunnelsOk(c, s) && NoDuplicates(s) && ArrivalsOk(s) && t.tunnels == s.tunnels && t.arrivals == s.arrivals
    ensures TunnelsOk(c, t) && NoDuplicates(t) && ArrivalsOk(t)
  {
    hide Carries;
  }

  lemma FlowsSame(s: State, t: State)
    requires RepliesOk(s) && ForwardersOk(s) && t.tunnels == s.tunnels && t.replies == s.replies
    requires forall id :: id in t.forwarders ==>
      id in s.forwarders && t.forwarders[id] == s.forwarders[id].(leaving := t.forwarders[id].leaving)
    ensures RepliesOk(t) && ForwardersOk(t)
  {
  }

  // Sessions may go away or be touched.
  lemma TableShrinks(s: State, t: State)
    requires SessionsOk(s) && ServeOk(s) && t.tunnels == s.tunnels && t.arrivals == s.arrivals && t.at == s.at
    requires forall k :: k in t.sessions ==> k in s.sessions && t.sessions[k].stream == s.sessions[k].stream
    ensures SessionsOk(t) && ServeOk(t)
  {
  }

  lemma ReplyAdded(s: State, t: State, id: StreamId, payload: bytes)
    requires |payload| <= MAX_PAYLOAD
    requires RepliesOk(s) && ForwardersOk(s) && id in s.forwarders && t.tunnels == s.tunnels
    requires var f := s.forwarders[id]; t.replies == s.replies + [Reply(id, Datagram(f.from, f.to, payload))]
    ensures RepliesOk(t)
  {
  }

  // A write after which `Serve` goes back to reading.
  lemma WriteEnds(c: Config, s: State, t: State, id: StreamId, u: Tunnel)
    requires Inv(c, s) && OneTunnel(s, t, id, u) && t.forwarders == s.forwarders && t.at == Reading
    requires Carries(c, s.arrivals, u) && (u.headed || u.failed) && NoDuplicates(t)
    requires s.at == Heading(id) || s.at == Sending(id)
    ensures Inv(c, t)
  {
    TunnelsKept(c, s, t, id, u);
    TableKept(s, t, id, u);
    FlowsKept(s, t, id, u);
    InboundKept(s, t);
    hide Carries, TunnelsOk, NoDuplicates, SessionsOk, RepliesOk, ForwardersOk, InboundOk;
  }

  // ---------- the steps ----------

  lemma StepArrive(c: Config, s: State, d: Arrival)
    requires Inv(c, s) && Enabled(c, s, Arrive(d))
    ensures Inv(c, Apply(c, s, Arrive(d)))
  {
    var t := Apply(c, s, Arrive(d));
    assert t == s.(arrivals := s.arrivals + [d], at := LookingUp);
    InboundKept(s, t);
    hide Apply, Enabled, InboundOk;
    forall id | id in s.tunnels
      ensures Carries(c, s.arrivals + [d], s.tunnels[id]) && |s.arrivals| !in s.tunnels[id].sent
    {
      CarriesLater(c, s.arrivals, d, s.tunnels[id]);
    }
  }

  lemma StepOpen(c: Config, s: State, id: StreamId)
    requires Inv(c, s) && Enabled(c, s, Open(id))
    ensures Inv(c, Apply(c, s, Open(id)))
  {
    var t := Apply(c, s, Open(id));
    InboundKept(s, t);
    OpenTunnels(c, s, id);
    OpenTable(c, s, id);
    assert ArrivalsOk(t);
    hide Apply, Enabled, Carries, TunnelsOk, NoDuplicates, SessionsOk, RepliesOk, ForwardersOk, InboundOk, ServeOk, ArrivalsOk;
  }

  lemma OpenTunnels(c: Config, s: State, id: StreamId)
    requires TunnelsOk(c, s) && NoDuplicates(s) && Enabled(c, s, Open(id))
    ensures TunnelsOk(c, Apply(c, s, Open(id))) && NoDuplicates(Apply(c, s, Open(id)))
  {
    var u := Tunnel(CurrentFlow(s), |s.arrivals| - 1, [], false, false, false, []);
    assert Carries(c, s.arrivals, u);
    hide Carries;
  }

  lemma OpenTable(c: Config, s: State, id: StreamId)
    requires SessionsOk(s) && ForwardersOk(s) && RepliesOk(s) && ServeOk(s) && Enabled(c, s, Open(id))
    ensures var t := Apply(c, s, Open(id)); SessionsOk(t) && ForwardersOk(t) && RepliesOk(t) && ServeOk(t)
  {
  }

  lemma StepHeader(c: Config, s: State)
    requires Inv(c, s) && Enabled(c, s, WriteHeader)
    ensures Inv(c, Apply(c, s, WriteHeader))
  {
    var id, t := s.at.stream, Apply(c, s, WriteHeader);
    var u := t.tunnels[id];
    CarriesHeader(c, s.arrivals, s.tunnels[id]);
    TunnelsKept(c, s, t, id, u);
    SentKept(s, t, id, u);
    TableKept(s, t, id, u);
    FlowsKept(s, t, id, u);
    ForwarderStarts(s, t, id, u);
    InboundKept(s, t);
    HeaderServe(c, s);
    hide Apply, Enabled, Carries, TunnelsOk, NoDuplicates, SessionsOk, RepliesOk, ForwardersOk, InboundOk, ServeOk;
  }

  lemma HeaderServe(c: Config, s: State)
    requires ServeOk(s) && ArrivalsOk(s) && Enabled(c, s, WriteHeader)
    ensures ServeOk(Apply(c, s, WriteHeader)) && ArrivalsOk(Apply(c, s, WriteHeader))
  {
    hide EncodeFrame;
  }

  lemma StepDatagram(c: Config, s: State)
    requires Inv(c, s) && Enabled(c, s, WriteDatagram)
    ensures Inv(c, Apply(c, s, WriteDatagram))
  {
    var id, t := s.at.stream, Apply(c, s, WriteDatagram);
    CarriesSent(c, s.arrivals, s.tunnels[id]);
    SentOnce(s, t, id, t.tunnels[id]);
    WriteEnds(c, s, t, id, t.tunnels[id]);
    hide Inv;
  }

  // Nothing is claimed of the bytes on a stream once a write has failed.
  lemma CarriesFailed(c: Config, arrivals: seq<Arrival>, t: Tunnel, part: bytes)
    requires Carries(c, arrivals, t)
    ensures Carries(c, arrivals, Wrote(t, part).(failed := true))
  {
  }

  lemma StepFailHeader(c: Config, s: State, part: bytes)
    requires Inv(c, s) && Enabled(c, s, FailHeader(part))
    ensures Inv(c, Apply(c, s, FailHeader(part)))
  {
    var id, t := s.at.stream, Apply(c, s, FailHeader(part));
    CarriesFailed(c, s.arrivals, s.tunnels[id], part);
    SentKept(s, t, id, t.tunnels[id]);
    WriteEnds(c, s, t, id, t.tunnels[id]);
    hide Inv;
  }

  lemma StepFailDatagram(c: Config, s: State, part: bytes)
    requires Inv(c, s) && Enabled(c, s, FailDatagram(part))
    ensures Inv(c, Apply(c, s, FailDatagram(part)))
  {
    var id, t := s.at.stream, Apply(c, s, FailDatagram(part));
    CarriesFailed(c, s.arrivals, s.tunnels[id], part);
    SentKept(s, t, id, t.tunnels[id]);
    WriteEnds(c, s, t, id, t.tunnels[id]);
    hide Inv;
  }

  lemma StepGiveUp(c: Config, s: State)
    requires Inv(c, s) && Enabled(c, s, GiveUp)
    ensures Inv(c, Apply(c, s, GiveUp))
  {
    var t := Apply(c, s, GiveUp);
    TunnelsSame(c, s, t);
    FlowsSame(s, t);
    InboundKept(s, t);
    assert SessionsOk(t) && ServeOk(t);
    hide Apply, Enabled, Carries, TunnelsOk, NoDuplicates, SessionsOk, RepliesOk, ForwardersOk, InboundOk, ServeOk, ArrivalsOk;
  }

  lemma StepLookUp(c: Config, s: State)
    requires Inv(c, s) && Enabled(c, s, LookUp)
    ensures Inv(c, Apply(c, s, LookUp))
  {
    hide Touched, Carries, TunnelsOk, NoDuplicates, SessionsOk, RepliesOk, ForwardersOk, InboundOk, ServeOk, ArrivalsOk;
    var t := Apply(c, s, LookUp);
    TunnelsSame(c, s, t);
    FlowsSame(s, t);
    InboundKept(s, t);
    LookUpTable(c, s);
  }

  lemma LookUpTable(c: Config, s: State)
    requires SessionsOk(s) && ServeOk(s) && Enabled(c, s, LookUp)
    ensures SessionsOk(Apply(c, s, LookUp)) && ServeOk(Apply(c, s, LookUp))
  {
  }

  lemma StepInsert(c: Config, s: State)
    requires Inv(c, s) && Enabled(c, s, Insert)
    ensures Inv(c, Apply(c, s, Insert))
  {
    var t := Apply(c, s, Insert);
    TunnelsSame(c, s, t);
    FlowsSame(s, t);
    InboundKept(s, t);
    InsertTable(c, s);
    hide Apply, Enabled, Carries, TunnelsOk, NoDuplicates, SessionsOk, RepliesOk, ForwardersOk, InboundOk, ServeOk, ArrivalsOk;
  }

  lemma InsertTable(c: Config, s: State)
    requires SessionsOk(s) && ServeOk(s) && Enabled(c, s, Insert)
    ensures SessionsOk(Apply(c, s, Insert)) && ServeOk(Apply(c, s, Insert))
  {
  }

  // The clock, the recycler and a touched session.
  lemma TableMoves(c: Config, s: State, t: State)
    requires Inv(c, s) && t == s.(sessions := t.sessions, lastUsed := t.lastUsed, now := t.now)
    requires forall k :: k in t.sessions ==> k in s.sessions && t.sessions[k].stream == s.sessions[k].stream
    ensures Inv(c, t)
  {
    TunnelsSame(c, s, t);
    FlowsSame(s, t);
    TableShrinks(s, t);
    InboundKept(s, t);
    hide TunnelsOk, NoDuplicates, SessionsOk, RepliesOk, ForwardersOk, InboundOk, ServeOk, ArrivalsOk;
  }

  lemma StepTable(c: Config, s: State, a: Action)
    requires Inv(c, s) && Enabled(c, s, a) && (a.Tick? || a.Touch? || a.Recycle?)
    ensures Inv(c, Apply(c, s, a))
  {
    hide Inv;
    TableMoves(c, s, Apply(c, s, a));
  }

  lemma StepForget(c: Config, s: State, id: StreamId)
    requires Inv(c, s) && Enabled(c, s, Forget(id))
    ensures Inv(c, Apply(c, s, Forget(id)))
  {
    var t := Apply(c, s, Forget(id));
    TunnelsSame(c, s, t);
    FlowsSame(s, t);
    TableShrinks(s, t);
    InboundKept(s, t);
    hide Apply, Enabled, Carries, TunnelsOk, NoDuplicates, SessionsOk, RepliesOk, ForwardersOk, InboundOk, ServeOk, ArrivalsOk;
  }

  lemma StepClose(c: Config, s: State, id: StreamId)
    requires Inv(c, s) && Enabled(c, s, Close(id))
    ensures Inv(c, Apply(c, s, Close(id)))
  {
    var t := Apply(c, s, Close(id));
    var u := t.tunnels[id];
    assert Carries(c, s.arrivals, u);
    TunnelsKept(c, s, t, id, u);
    SentKept(s, t, id, u);
    FlowsKept(s, t, id, u);
    InboundKept(s, t);
    CloseKept(s, t, id, u);
    hide Apply, Enabled, Carries, TunnelsOk, NoDuplicates, SessionsOk, RepliesOk, ForwardersOk, InboundOk, ServeOk;
  }

  // Closing a stream touches nothing that table, forwarders and `Serve` rely on.
  lemma CloseKept(s: State, t: State, id: StreamId, u: Tunnel)
    requires SessionsOk(s) && ForwardersOk(s) && ServeOk(s) && OneTunnel(s, t, id, u)
    requires u == s.tunnels[id].(closed := true) && t.at == s.at && t.forwarders == s.forwarders - {id}
    ensures SessionsOk(t) && ForwardersOk(t) && ServeOk(t)
  {
  }

  // ---------- the way back ----------

  lemma RepliesOnNext(replies: seq<Reply>, r: Reply, id: StreamId)
    ensures RepliesOn(replies + [r], id)
         == if r.stream == id then RepliesOn(replies, id) + [r.packet.payload] else RepliesOn(replies, id)
  {
    assert (replies + [r])[..|replies|] == replies;
  }

  lemma {:induction false} ConcatSnoc(chunks: seq<bytes>, chunk: bytes)
    ensures Concat(chunks + [chunk]) == Concat(chunks) + chunk
  {
    if chunks == [] {
      assert [chunk][1..] == [];
    } else {
      assert (chunks + [chunk])[1..] == chunks[1..] + [chunk];
      ConcatSnoc(chunks[1..], chunk);
      ConcatAssoc(chunks[0], Concat(chunks[1..]), chunk);
    }
  }

  lemma HeardMore(i: Inbound, replied: seq<bytes>, chunk: bytes)
    requires Heard(i, replied) && chunk != []
    ensures Heard(More(i, chunk), replied)
  {
    ConcatSnoc(i.chunks, chunk);
    ConcatAssoc(EncodeAll(replied), Concat(i.chunks), chunk);
  }

  lemma HeardFrame(i: Inbound, replied: seq<bytes>)
    requires Heard(i, replied) && i.chunks != [] && |i.chunks[0]| >= 2 && BodyThere(i.chunks)
    ensures Heard(i.(chunks := AfterBody(i.chunks)), replied + [Body(i.chunks)])
  {
    BodyFramed(i.chunks);
    EncodeAllSnoc(replied, Body(i.chunks));
    hide Body, AfterBody, BodyThere, EncodeFrame, EncodeAll, Concat;
    ConcatAssoc(EncodeAll(replied), EncodeFrame(Body(i.chunks)), Concat(AfterBody(i.chunks)));
  }

  lemma HeardShort(i: Inbound, replied: seq<bytes>)
    requires Heard(i, replied) && i.chunks != []
    ensures Heard(i.(chunks := i.chunks[1..], shortRead := true), replied)
  {
    assert forall c :: c in i.chunks[1..] ==> c in i.chunks;
  }

  lemma StepClient(c: Config, s: State, id: StreamId, chunk: bytes)
    requires InboundOk(s) && Enabled(c, s, ClientWrites(id, chunk))
    ensures InboundOk(Apply(c, s, ClientWrites(id, chunk)))
  {
    var i := if id in s.inbound then s.inbound[id] else NothingYet;
    assert [] + [] == EncodeAll([]) + Concat([]);
    HeardMore(i, RepliesOn(s.replies, id), chunk);
    hide Heard, RepliesOn, EncodeAll, Concat;
  }

  lemma StepReply(c: Config, s: State, id: StreamId)
    requires InboundOk(s) && Enabled(c, s, SendReply(id))
    ensures InboundOk(Apply(c, s, SendReply(id)))
  {
    var t := Apply(c, s, SendReply(id));
    HeardFrame(s.inbound[id], RepliesOn(s.replies, id));
    var last := t.replies[|s.replies|];
    assert t.replies == s.replies + [last] && last.stream == id && last.packet.payload == Body(s.inbound[id].chunks);
    forall j: StreamId
      ensures RepliesOn(t.replies, j)
           == if j == id then RepliesOn(s.replies, j) + [last.packet.payload] else RepliesOn(s.replies, j)
    {
      RepliesOnNext(s.replies, last, j);
    }
    hide Heard, RepliesOn, Body, AfterBody, BodyThere;
  }

  lemma StepShort(c: Config, s: State, id: StreamId)
    requires InboundOk(s) && Enabled(c, s, ReadShort(id))
    ensures InboundOk(Apply(c, s, ReadShort(id)))
  {
    hide Heard, RepliesOn;
    HeardShort(s.inbound[id], RepliesOn(s.replies, id));
  }

  // The inbound side changes, or the process dies, and nothing else.
  lemma InboundMoves(c: Config, s: State, t: State)
    requires Inv(c, s) && InboundOk(t) && t == s.(inbound := t.inbound, crashed := t.crashed)
    ensures Inv(c, t)
  {
    TunnelsSame(c, s, t);
    TableShrinks(s, t);
    FlowsSame(s, t);
    hide TunnelsOk, NoDuplicates, SessionsOk, RepliesOk, ForwardersOk, InboundOk, ServeOk, ArrivalsOk;
  }

  lemma ClientMoves(c: Config, s: State, id: StreamId, chunk: bytes)
    requires Inv(c, s) && Enabled(c, s, ClientWrites(id, chunk))
    ensures Inv(c, Apply(c, s, ClientWrites(id, chunk)))
  {
    StepClient(c, s, id, chunk);
    InboundMoves(c, s, Apply(c, s, ClientWrites(id, chunk)));
    hide Inv;
  }

  lemma ShortMoves(c: Config, s: State, id: StreamId)
    requires Inv(c, s) && Enabled(c, s, ReadShort(id))
    ensures Inv(c, Apply(c, s, ReadShort(id)))
  {
    StepShort(c, s, id);
    InboundMoves(c, s, Apply(c, s, ReadShort(id)));
    hide Inv;
  }

  lemma ReplyMoves(c: Config, s: State, id: StreamId)
    requires Inv(c, s) && Enabled(c, s, SendReply(id))
    ensures Inv(c, Apply(c, s, SendReply(id)))
  {
    var t := Apply(c, s, SendReply(id));
    StepReply(c, s, id);
    TunnelsSame(c, s, t);
    TableShrinks(s, t);
    ReplyAdded(s, t, id, Body(s.inbound[id].chunks));
    FlowsSame(s, t.(replies := s.replies));
    assert ForwardersOk(t);
    hide Apply, Enabled, TunnelsOk, NoDuplicates, SessionsOk, RepliesOk, ForwardersOk, InboundOk, ServeOk, ArrivalsOk;
  }

  lemma StepCrash(c: Config, s: State, id: StreamId)
    requires Inv(c, s) && Enabled(c, s, Crash(id))
    ensures Inv(c, Apply(c, s, Crash(id)))
  {
    InboundKept(s, Apply(c, s, Crash(id)));
    InboundMoves(c, s, Apply(c, s, Crash(id)));
    hide Inv;
  }

  /** Every action of every goroutine keeps the invariant. */
  lemma StepKeeps(c: Config, s: State, a: Action)
    requires Inv(c, s) && Enabled(c, s, a)
    ensures Inv(c, Apply(c, s, a))
  {
    hide Inv, Apply, Enabled;
    match a
    case Arrive(d) => StepArrive(c, s, d);
    case Open(id) => StepOpen(c, s, id);
    case WriteHeader => StepHeader(c, s);
    case WriteDatagram => StepDatagram(c, s);
    case FailHeader(part) => StepFailHeader(c, s, part);
    case FailDatagram(part) => StepFailDatagram(c, s, part);
    case LookUp => StepLookUp(c, s);
    case GiveUp => StepGiveUp(c, s);
    case Insert => StepInsert(c, s);
    case Forget(id) => StepForget(c, s, id);
    case Close(id) => StepClose(c, s, id);
    case ClientWrites(id, chunk) => ClientMoves(c, s, id, chunk);
    case SendReply(id) => ReplyMoves(c, s, id);
    case ReadShort(id) => ShortMoves(c, s, id);
    case Crash(id) => StepCrash(c, s, id);
    case _ => StepTable(c, s, a);
  }

  // ---------- nothing is lost silently ----------

  ghost predicate SentSomewhere(tunnels: map<StreamId, Tunnel>, x: nat) {
    exists id :: id in tunnels && x in tunnels[id].sent
  }

  function Handled(s: State): nat {
    if s.at == Reading || s.arrivals == [] then |s.arrivals| else |s.arrivals| - 1
  }

  /** Every arrival `Serve` is done with went out on a stream, or was given up or lost to a failed write. */
  ghost predicate Accounted(s: State) {
    forall x: nat :: x < Handled(s) ==> x in s.dropped || SentSomewhere(s.tunnels, x)
  }

  lemma StillSent(before: map<StreamId, Tunnel>, after: map<StreamId, Tunnel>, x: nat)
    requires SentSomewhere(before, x)
    requires forall id :: id in before ==> id in after && before[id].sent <= after[id].sent
    ensures SentSomewhere(after, x)
  {
    var id :| id in before && x in before[id].sent;
    assert x in after[id].sent;
  }

  // No step takes back a datagram sent or a drop recorded.
  lemma SentStays(c: Config, s: State, a: Action, id: StreamId)
    requires Enabled(c, s, a) && id in s.tunnels
    ensures var t := Apply(c, s, a); id in t.tunnels && s.tunnels[id].sent <= t.tunnels[id].sent
  {
  }

  // The arrival a step is done with is on a stream now, or among the dropped ones.
  lemma StepHandles(c: Config, s: State, a: Action)
    requires ServeOk(s) && Enabled(c, s, a)
    ensures var t := Apply(c, s, a);
      && s.dropped <= t.dropped
      && (Handled(t) > Handled(s) ==>
            Handled(t) == Handled(s) + 1
            && (Handled(s) in t.dropped
                || (a == WriteDatagram && s.at.stream in t.tunnels && Handled(s) in t.tunnels[s.at.stream].sent)))
  {
    hide EncodeFrame;
  }

  lemma StepAccounts(c: Config, s: State, a: Action)
    requires Accounted(s) && ServeOk(s) && Enabled(c, s, a)
    ensures Accounted(Apply(c, s, a))
  {
    var t := Apply(c, s, a);
    forall id | id in s.tunnels
      ensures id in t.tunnels && s.tunnels[id].sent <= t.tunnels[id].sent
    {
      SentStays(c, s, a, id);
    }
    StepHandles(c, s, a);
    hide Apply, Enabled, ServeOk, Handled;
    forall x: nat | x < Handled(t)
      ensures x in t.dropped || SentSomewhere(t.tunnels, x)
    {
      if x < Handled(s) && x !in s.dropped {
        StillSent(s.tunnels, t.tunnels, x);
      }
    }
  }

  // ---------- when a session was used ----------

  /** The table knows when each of its sessions was last used; a session being made has its own time. */
  ghost predicate TimesOk(s: State) {
    && (forall k :: k in s.sessions ==> k in s.lastUsed && s.sessions[k].lastActive == s.lastUsed[k])
    && (s.at.Inserting? ==> Current(s) && CurrentFlow(s) in s.lastUsed && s.at.created == s.lastUsed[CurrentFlow(s)])
    && (forall k :: k in s.lastUsed ==> s.lastUsed[k] <= s.now)
  }

  lemma ServeTimes(c: Config, s: State, a: Action)
    requires TimesOk(s) && ServeOk(s) && Enabled(c, s, a) && (OfServe(a) || a.Open?)
    ensures TimesOk(Apply(c, s, a))
  {
    hide EncodeFrame;
  }

  lemma OtherTimes(c: Config, s: State, a: Action)
    requires TimesOk(s) && ServeOk(s) && Enabled(c, s, a) && !OfServe(a) && !a.Open?
    ensures TimesOk(Apply(c, s, a))
  {
    hide EncodeFrame, BodyThere, Oversized, Body, AfterBody, Alive;
  }

  lemma StepTimes(c: Config, s: State, a: Action)
    requires TimesOk(s) && ServeOk(s) && Enabled(c, s, a)
    ensures TimesOk(Apply(c, s, a))
  {
    hide TimesOk, ServeOk, Enabled, Apply;
    if OfServe(a) || a.Open? {
      ServeTimes(c, s, a);
    } else {
      OtherTimes(c, s, a);
    }
  }

  // ---------- what is closed ----------

  /** A stream is closed exactly when its forwarder, started after the header, is gone. */
  predicate ClosedOk(s: State) {
    forall id :: id in s.tunnels ==>
      if s.tunnels[id].headed then s.tunnels[id].closed <==> id !in s.forwarders
      else !s.tunnels[id].closed && id !in s.forwarders
  }

  lemma ServeClosed(c: Config, s: State, a: Action)
    requires ClosedOk(s) && ServeOk(s) && ForwardersOk(s) && Enabled(c, s, a) && (OfServe(a) || a.WriteDatagram? || a.Open?)
    ensures ClosedOk(Apply(c, s, a))
  {
    hide EncodeFrame, Touched;
  }

  lemma OtherClosed(c: Config, s: State, a: Action)
    requires ClosedOk(s) && Enabled(c, s, a) && !OfServe(a) && !a.WriteDatagram? && !a.Open?
    ensures ClosedOk(Apply(c, s, a))
  {
    hide EncodeFrame, BodyThere, Oversized, Body, AfterBody, Alive, Touched;
  }

  lemma StepClosed(c: Config, s: State, a: Action)
    requires ClosedOk(s) && ServeOk(s) && ForwardersOk(s) && Enabled(c, s, a)
    ensures ClosedOk(Apply(c, s, a))
  {
    hide ClosedOk, ServeOk, ForwardersOk, Enabled, Apply;
    if OfServe(a) || a.WriteDatagram? || a.Open? {
      ServeClosed(c, s, a);
    } else {
      OtherClosed(c, s, a);
    }
  }

  /**
   What each step does to the table: finding a session and replying make it active now, only `Serve` inserts,
   for the flow of its datagram, a leaving forwarder takes away its own key, and the recycler what it
   removes. Nothing else changes it.
   */
  lemma TableChanges(c: Config, s: State, a: Action)
    requires Enabled(c, s, a)
    ensures var t := Apply(c, s, a);
      match a
      case LookUp =>
        var key := CurrentFlow(s);
        if key in s.sessions then t.sessions == s.sessions[key := Session(s.sessions[key].stream, s.now)]
        else t.sessions == s.sessions
      case Touch(id) =>
        var key := s.forwarders[id].key;
        if key in s.sessions then t.sessions == s.sessions[key := Session(s.sessions[key].stream, s.now)]
        else t.sessions == s.sessions
      case Insert => t.sessions == s.sessions[CurrentFlow(s) := Session(s.at.stream, s.at.created)]
      case Forget(id) =>
        var key := s.forwarders[id].key;
        key !in t.sessions && t.sessions == s.sessions - {key}
      case Recycle(removed, _) =>
        forall k :: (k in t.sessions <==> k in s.sessions && k !in removed)
                 && (k in t.sessions ==> t.sessions[k] == s.sessions[k])
      case _ => t.sessions == s.sessions
  {
    hide EncodeFrame, BodyThere, Oversized, Body, AfterBody, Alive;
  }

  // ---------- what kills the process ----------

  // A stream on which the next frame is longer than a packet can carry.
  predicate OversizedNext(i: Inbound) {
    i.chunks != [] && |i.chunks[0]| >= 2 && Oversized(i.chunks)
  }

  ghost predicate CrashOk(s: State) {
    s.crashed ==> exists id :: id in s.inbound && OversizedNext(s.inbound[id])
  }

  lemma StepCrashOk(c: Config, s: State, a: Action)
    requires Enabled(c, s, a)
    ensures CrashOk(Apply(c, s, a))
  {
    if a.Crash? {
      assert OversizedNext(s.inbound[a.stream]);
    } else {
      OthersLive(c, s, a);
    }
  }

  lemma OthersLive(c: Config, s: State, a: Action)
    requires Enabled(c, s, a) && !a.Crash?
    ensures !Apply(c, s, a).crashed
  {
    hide EncodeFrame, Oversized, Body, AfterBody, BodyThere;
  }

  // ---------- the loop of the forwarder ----------

  /**
   Whatever may still arrive, what `forwardUDP` makes of all pieces of the stream is what has been replied
   and what it makes of the pieces it has not read yet.
   */
  ghost predicate Refines(i: Inbound, replied: seq<bytes>) {
    && NoEmpty(i.pieces) && NoEmpty(i.chunks) && Concat(i.pieces) == i.received
    && forall later: seq<bytes> :: NoEmpty(later) ==> SameLoop(i, replied, later)
  }

  ghost predicate SameLoop(i: Inbound, replied: seq<bytes>, later: seq<bytes>) {
    && NoEmpty(i.pieces + later) && NoEmpty(i.chunks + later)
    && RepliesOf(i.pieces + later) == replied + RepliesOf(i.chunks + later)
    && (Crashes(i.pieces + later) <==> Crashes(i.chunks + later))
  }

  ghost predicate LoopOk(s: State) {
    && (forall id :: id in s.inbound ==> Refines(s.inbound[id], RepliesOn(s.replies, id)))
    && (forall id :: id !in s.inbound ==> RepliesOn(s.replies, id) == [])
  }

  lemma RefinesNothing()
    ensures Refines(NothingYet, [])
  {
    forall later: seq<bytes> | NoEmpty(later)
      ensures SameLoop(NothingYet, [], later)
    {
      assert [] + later == later;
      assert [] + RepliesOf(later) == RepliesOf(later);
    }
  }

  lemma LoopMore(i: Inbound, replied: seq<bytes>, chunk: bytes, later: seq<bytes>)
    requires SameLoop(i, replied, [chunk] + later)
    ensures SameLoop(More(i, chunk), replied, later)
  {
    ConcatAssoc(i.pieces, [chunk], later);
    ConcatAssoc(i.chunks, [chunk], later);
    hide RepliesOf, Crashes, NoEmpty;
  }

  lemma RefinesMore(i: Inbound, replied: seq<bytes>, chunk: bytes)
    requires Refines(i, replied) && chunk != []
    ensures Refines(More(i, chunk), replied)
  {
    ConcatSnoc(i.pieces, chunk);
    assert NoEmpty([chunk]);
    hide SameLoop, NoEmpty, Concat;
    NoEmptyJoin(i.pieces, [chunk]);
    NoEmptyJoin(i.chunks, [chunk]);
    forall later: seq<bytes> | NoEmpty(later)
      ensures SameLoop(More(i, chunk), replied, later)
    {
      NoEmptyJoin([chunk], later);
      LoopMore(i, replied, chunk, later);
    }
  }

  lemma RefinesFrame(i: Inbound, replied: seq<bytes>)
    requires Refines(i, replied) && i.chunks != [] && |i.chunks[0]| >= 2 && BodyThere(i.chunks) && !Oversized(i.chunks)
    ensures Refines(i.(chunks := AfterBody(i.chunks)), replied + [Body(i.chunks)])
  {
    BodyFramed(i.chunks);
    hide Body, BodyThere, AfterBody, Oversized, RepliesOf, Crashes, Concat;
    forall later: seq<bytes> | NoEmpty(later)
      ensures SameLoop(i.(chunks := AfterBody(i.chunks)), replied + [Body(i.chunks)], later)
    {
      assert SameLoop(i, replied, later);
      RepliesFrame(i.chunks, later);
      ConcatAssoc(replied, [Body(i.chunks)], RepliesOf(AfterBody(i.chunks) + later));
    }
  }

  lemma RefinesShort(i: Inbound, replied: seq<bytes>)
    requires Refines(i, replied) && i.chunks != [] && |i.chunks[0]| == 1
    ensures Refines(i.(chunks := i.chunks[1..], shortRead := true), replied)
  {
    assert forall c :: c in i.chunks[1..] ==> c in i.chunks;
    hide RepliesOf, Crashes, Concat;
    forall later: seq<bytes> | NoEmpty(later)
      ensures SameLoop(i.(chunks := i.chunks[1..], shortRead := true), replied, later)
    {
      assert SameLoop(i, replied, later);
      RepliesShort(i.chunks, later);
    }
  }

  lemma LoopClient(c: Config, s: State, id: StreamId, chunk: bytes)
    requires LoopOk(s) && Enabled(c, s, ClientWrites(id, chunk))
    ensures LoopOk(Apply(c, s, ClientWrites(id, chunk)))
  {
    hide Refines, RepliesOn, More, NothingYet;
    RefinesNothing();
    RefinesMore(if id in s.inbound then s.inbound[id] else NothingYet, RepliesOn(s.replies, id), chunk);
  }

  lemma LoopReply(c: Config, s: State, id: StreamId)
    requires LoopOk(s) && Enabled(c, s, SendReply(id))
    ensures LoopOk(Apply(c, s, SendReply(id)))
  {
    hide Refines, RepliesOn, Body, AfterBody, BodyThere, Oversized;
    var t := Apply(c, s, SendReply(id));
    RefinesFrame(s.inbound[id], RepliesOn(s.replies, id));
    var last := t.replies[|s.replies|];
    assert t.replies == s.replies + [last] && last.stream == id && last.packet.payload == Body(s.inbound[id].chunks);
    forall j: StreamId
      ensures RepliesOn(t.replies, j)
           == if j == id then RepliesOn(s.replies, j) + [last.packet.payload] else RepliesOn(s.replies, j)
    {
      RepliesOnNext(s.replies, last, j);
    }
  }

  lemma LoopShort(c: Config, s: State, id: StreamId)
    requires LoopOk(s) && Enabled(c, s, ReadShort(id))
    ensures LoopOk(Apply(c, s, ReadShort(id)))
  {
    hide Refines, RepliesOn;
    RefinesShort(s.inbound[id], RepliesOn(s.replies, id));
  }

  lemma LoopOthers(c: Config, s: State, a: Action)
    requires LoopOk(s) && Enabled(c, s, a) && !a.ClientWrites? && !a.SendReply? && !a.ReadShort?
    ensures LoopOk(Apply(c, s, a))
  {
    hide Refines, RepliesOn, EncodeFrame, BodyThere, Oversized, Alive, Touched;
  }

  lemma StepLoop(c: Config, s: State, a: Action)
    requires LoopOk(s) && Enabled(c, s, a)
    ensures LoopOk(Apply(c, s, a))
  {
    hide LoopOk, Enabled, Apply;
    match a
    case ClientWrites(id, chunk) => LoopClient(c, s, id, chunk);
    case SendReply(id) => LoopReply(c, s, id);
    case ReadShort(id) => LoopShort(c, s, id);
    case _ => LoopOthers(c, s, a);
  }

  // ---------- successive streams of one flow ----------

  /** All of a flow's other streams were opened before this one. */
  predicate Latest(tunnels: map<StreamId, Tunnel>, id: StreamId) {
    && id in tunnels
    && forall j :: j in tunnels && j != id && tunnels[j].flow == tunnels[id].flow ==> tunnels[j].openedFor < tunnels[id].openedFor
  }

  /** What goes out on a stream has arrived no earlier than what the stream was opened for. */
  predicate SentSinceOpened(s: State) {
    forall id :: id in s.tunnels ==>
      && s.tunnels[id].openedFor < |s.arrivals|
      && forall k :: 0 <= k < |s.tunnels[id].sent| ==> s.tunnels[id].openedFor <= s.tunnels[id].sent[k] < |s.arrivals|
  }

  /** When the next stream of a flow is opened, nothing more goes out on the one before. */
  predicate SentBeforeNext(s: State) {
    forall i, j :: i in s.tunnels && j in s.tunnels && i != j && s.tunnels[i].flow == s.tunnels[j].flow ==>
      && s.tunnels[i].openedFor != s.tunnels[j].openedFor
      && (s.tunnels[i].openedFor < s.tunnels[j].openedFor ==>
            forall k :: 0 <= k < |s.tunnels[i].sent| ==> s.tunnels[i].sent[k] < s.tunnels[j].openedFor)
  }

  /** The table and `Serve` only know the latest stream of a flow. */
  predicate LatestInUse(s: State) {
    && (forall k :: k in s.sessions ==> Latest(s.tunnels, s.sessions[k].stream))
    && match s.at
       case Reading => true
       case LookingUp => forall id :: id in s.tunnels ==> s.tunnels[id].openedFor < |s.arrivals| - 1
       case Opening => forall id :: id in s.tunnels ==> s.tunnels[id].openedFor < |s.arrivals| - 1
       case Inserting(id, _) => Latest(s.tunnels, id)
       case Heading(id) => Latest(s.tunnels, id)
       case Sending(id) => Latest(s.tunnels, id)
  }

  predicate StreamsOrdered(s: State) {
    SentSinceOpened(s) && SentBeforeNext(s) && LatestInUse(s)
  }

  // The step changes no history of a stream, but perhaps the bytes on it.
  predicate SameHistory(before: map<StreamId, Tunnel>, after: map<StreamId, Tunnel>) {
    after.Keys == before.Keys && forall id :: id in before ==>
      after[id].flow == before[id].flow && after[id].openedFor == before[id].openedFor && after[id].sent == before[id].sent
  }

  lemma HistoryKept(s: State, t: State)
    requires SentSinceOpened(s) && SentBeforeNext(s) && SameHistory(s.tunnels, t.tunnels) && |s.arrivals| <= |t.arrivals|
    ensures SentSinceOpened(t) && SentBeforeNext(t)
    ensures forall id :: Latest(s.tunnels, id) ==> Latest(t.tunnels, id)
  {
  }

  lemma OpenSent(c: Config, s: State, id: StreamId)
    requires StreamsOrdered(s) && ServeOk(s) && Enabled(c, s, Open(id))
    ensures SentSinceOpened(Apply(c, s, Open(id))) && SentBeforeNext(Apply(c, s, Open(id)))
  {
    forall i | i in s.tunnels
      ensures forall k :: 0 <= k < |s.tunnels[i].sent| ==> s.tunnels[i].sent[k] < |s.arrivals| - 1
    {
      assert |s.arrivals| - 1 !in s.tunnels[i].sent;
    }
  }

  lemma OpenLatest(c: Config, s: State, id: StreamId)
    requires StreamsOrdered(s) && ServeOk(s) && SessionsOk(s) && Enabled(c, s, Open(id))
    ensures LatestInUse(Apply(c, s, Open(id)))
  {
    hide SentSinceOpened, SentBeforeNext;
  }

  lemma OpenOrdered(c: Config, s: State, id: StreamId)
    requires StreamsOrdered(s) && ServeOk(s) && SessionsOk(s) && Enabled(c, s, Open(id))
    ensures StreamsOrdered(Apply(c, s, Open(id)))
  {
    OpenSent(c, s, id);
    OpenLatest(c, s, id);
    hide SentSinceOpened, SentBeforeNext, LatestInUse, Apply, Enabled;
  }

  // The last arrival goes out on stream id.
  ghost predicate SendsLast(s: State, t: State, id: StreamId, u: Tunnel) {
    && OneTunnel(s, t, id, u) && u.openedFor == s.tunnels[id].openedFor
    && s.arrivals != [] && u.sent == s.tunnels[id].sent + [|s.arrivals| - 1]
  }

  lemma DatagramSince(s: State, t: State, id: StreamId, u: Tunnel)
    requires SentSinceOpened(s) && SendsLast(s, t, id, u)
    ensures SentSinceOpened(t)
  {
  }

  lemma DatagramBefore(s: State, t: State, id: StreamId, u: Tunnel)
    requires SentBeforeNext(s) && SendsLast(s, t, id, u) && Latest(s.tunnels, id)
    ensures SentBeforeNext(t)
  {
  }

  lemma DatagramLatest(s: State, t: State, id: StreamId, u: Tunnel)
    requires SendsLast(s, t, id, u)
    ensures forall k :: Latest(s.tunnels, k) ==> Latest(t.tunnels, k)
  {
  }

  lemma DatagramOrdered(c: Config, s: State)
    requires StreamsOrdered(s) && Enabled(c, s, WriteDatagram)
    ensures StreamsOrdered(Apply(c, s, WriteDatagram))
  {
    hide EncodeFrame, SentSinceOpened, SentBeforeNext, Latest;
    var id, t := s.at.stream, Apply(c, s, WriteDatagram);
    assert SendsLast(s, t, id, t.tunnels[id]);
    DatagramSince(s, t, id, t.tunnels[id]);
    DatagramBefore(s, t, id, t.tunnels[id]);
    DatagramLatest(s, t, id, t.tunnels[id]);
  }

  lemma ArriveOrdered(c: Config, s: State, d: Arrival)
    requires StreamsOrdered(s) && Enabled(c, s, Arrive(d))
    ensures StreamsOrdered(Apply(c, s, Arrive(d)))
  {
    hide SentBeforeNext, Latest;
    assert SentBeforeNext(Apply(c, s, Arrive(d))) by {
      HistoryKept(s, Apply(c, s, Arrive(d)));
    }
  }

  // `Serve` moves on with a stream, or the table changes.
  lemma ServeOrdered(s: State, t: State)
    requires StreamsOrdered(s) && SameHistory(s.tunnels, t.tunnels) && t.arrivals == s.arrivals
    requires forall k :: k in t.sessions ==>
      || (k in s.sessions && t.sessions[k].stream == s.sessions[k].stream)
      || (s.at.Inserting? && t.sessions[k].stream == s.at.stream)
    requires t.at == s.at || t.at == Reading || (s.at == LookingUp && t.at == Opening)
      || (s.at == LookingUp && t.at.Sending? && exists k :: k in s.sessions && t.at.stream == s.sessions[k].stream)
      || (s.at.Inserting? && t.at == Heading(s.at.stream)) || (s.at.Heading? && t.at == Sending(s.at.stream))
    ensures StreamsOrdered(t)
  {
    HistoryKept(s, t);
    hide SentSinceOpened, SentBeforeNext, Latest, SameHistory;
  }

  // The steps of `Serve` itself.
  predicate OfServe(a: Action) {
    a.LookUp? || a.GiveUp? || a.Insert? || a.WriteHeader? || a.FailHeader? || a.FailDatagram?
  }

  lemma MoveOrdered(c: Config, s: State, a: Action)
    requires StreamsOrdered(s) && Enabled(c, s, a) && OfServe(a)
    ensures StreamsOrdered(Apply(c, s, a))
  {
    hide EncodeFrame, StreamsOrdered;
    ServeOrdered(s, Apply(c, s, a));
  }

  lemma OtherOrdered(c: Config, s: State, a: Action)
    requires StreamsOrdered(s) && Enabled(c, s, a) && !OfServe(a) && !a.Open? && !a.WriteDatagram? && !a.Arrive?
    ensures StreamsOrdered(Apply(c, s, a))
  {
    hide StreamsOrdered, BodyThere, Oversized, Body, AfterBody;
    ServeOrdered(s, Apply(c, s, a));
  }

  lemma StepOrdered(c: Config, s: State, a: Action)
    requires StreamsOrdered(s) && ServeOk(s) && SessionsOk(s) && Enabled(c, s, a)
    ensures StreamsOrdered(Apply(c, s, a))
  {
    hide StreamsOrdered, ServeOk, SessionsOk, Enabled, Apply;
    match a
    case Open(id) => OpenOrdered(c, s, id);
    case WriteDatagram => DatagramOrdered(c, s);
    case Arrive(d) => ArriveOrdered(c, s, d);
    case _ =>
      if OfServe(a) {
        MoveOrdered(c, s, a);
      } else {
        OtherOrdered(c, s, a);
      }
  }

  // ---------- runs ----------

  predicate IsRun(c: Config, s: State, run: seq<Action>)
    decreases |run|
  {
    run == [] || (Enabled(c, s, run[0]) && IsRun(c, Apply(c, s, run[0]), run[1..]))
  }

  function Run(c: Config, s: State, run: seq<Action>): State
    requires IsRun(c, s, run)
    decreases |run|
  {
    if run == [] then s else Run(c, Apply(c, s, run[0]), run[1..])
  }

  ghost predicate Kept(c: Config, s: State) {
    Inv(c, s) && Accounted(s) && CrashOk(s) && StreamsOrdered(s) && TimesOk(s) && LoopOk(s) && ClosedOk(s)
  }

  lemma InitialKept(c: Config)
    ensures Kept(c, Initial)
  {
    InitialInv(c);
  }

  lemma StepKept(c: Config, s: State, a: Action)
    requires Kept(c, s) && Enabled(c, s, a)
    ensures Kept(c, Apply(c, s, a))
  {
    StepKeeps(c, s, a);
    StepAccounts(c, s, a);
    StepCrashOk(c, s, a);
    StepOrdered(c, s, a);
    StepTimes(c, s, a);
    StepLoop(c, s, a);
    StepClosed(c, s, a);
    hide Accounted, CrashOk, StreamsOrdered, TimesOk, LoopOk, ClosedOk, Apply, Enabled;
  }

  lemma {:induction false} RunKeeps(c: Config, s: State, run: seq<Action>)
    requires Kept(c, s) && IsRun(c, s, run)
    ensures Kept(c, Run(c, s, run))
    decreases |run|
  {
    if run != [] {
      StepKept(c, s, run[0]);
      hide Kept, Apply, Enabled;
      RunKeeps(c, Apply(c, s, run[0]), run[1..]);
    }
  }

  /**
   In every reachable state, what the client's read loop gets from an unfailed stream is the proxy
   header of one flow and then datagrams of that flow, in arrival order.
   */
  lemma ClientReceivesFlow(c: Config, run: seq<Action>, id: StreamId)
    requires forall f :: |c.header(f)| < 0x1_0000
    requires IsRun(c, Initial, run) && id in Run(c, Initial, run).tunnels
    requires !Run(c, Initial, run).tunnels[id].failed
    ensures var s := Run(c, Initial, run); var t := s.tunnels[id];
      && InOrder(s.arrivals, t.flow, t.sent)
      && Frames(t.written) == if t.headed then [c.header(t.flow)] + Payloads(s.arrivals, t.sent) else []
  {
    InitialKept(c);
    RunKeeps(c, Initial, run);
    var s := Run(c, Initial, run);
    assert Carries(c, s.arrivals, s.tunnels[id]);
    hide IsRun, Run, Kept;
    FlowReads(c, s.arrivals, s.tunnels[id]);
  }

  lemma FlowReads(c: Config, arrivals: seq<Arrival>, t: Tunnel)
    requires Carries(c, arrivals, t) && !t.failed
    requires |c.header(t.flow)| < 0x1_0000 && forall k :: 0 <= k < |arrivals| ==> |arrivals[k].payload| <= MAX_PAYLOAD
    ensures Frames(t.written) == if t.headed then [c.header(t.flow)] + Payloads(arrivals, t.sent) else []
  {
    if t.headed {
      var ds := Payloads(arrivals, t.sent);
      var all := [c.header(t.flow)] + ds;
      assert all[1..] == ds;
      assert EncodeAll(all) == t.written;
      hide Frames, EncodeAll, EncodeFrame, Carries;
      FramesRoundTrip(all, []);
      assert EncodeAll(all) + [] == EncodeAll(all);
      NoFrames();
      assert all + [] == all;
    }
  }

  lemma NoFrames()
    ensures Frames([]) == []
  {
  }

  /** In every reachable state no datagram has gone out on two streams, or twice on one. */
  lemma NeverTwice(c: Config, run: seq<Action>, i: StreamId, j: StreamId, x: nat, y: nat)
    requires IsRun(c, Initial, run)
    requires var s := Run(c, Initial, run); i in s.tunnels && j in s.tunnels
    requires var s := Run(c, Initial, run); x < |s.tunnels[i].sent| && y < |s.tunnels[j].sent|
    requires var s := Run(c, Initial, run); s.tunnels[i].sent[x] == s.tunnels[j].sent[y]
    ensures i == j && x == y
  {
    InitialKept(c);
    RunKeeps(c, Initial, run);
    var s := Run(c, Initial, run);
    assert s.tunnels[i].sent[x] in s.tunnels[i].sent && s.tunnels[j].sent[y] in s.tunnels[j].sent;
    assert Carries(c, s.arrivals, s.tunnels[i]);
  }

  /**
   When a flow has had several streams, all that went out on an earlier one arrived before all that went
   out on a later one: with the order on each stream, a flow's datagrams keep their order across streams.
   */
  lemma StreamsInOrder(c: Config, run: seq<Action>, i: StreamId, j: StreamId, x: nat, y: nat)
    requires IsRun(c, Initial, run)
    requires var s := Run(c, Initial, run); i in s.tunnels && j in s.tunnels && i != j
    requires var s := Run(c, Initial, run); s.tunnels[i].flow == s.tunnels[j].flow
    requires var s := Run(c, Initial, run); x < |s.tunnels[i].sent| && y < |s.tunnels[j].sent|
    ensures var s := Run(c, Initial, run);
      s.tunnels[i].openedFor < s.tunnels[j].openedFor <==> s.tunnels[i].sent[x] < s.tunnels[j].sent[y]
  {
    InitialKept(c);
    RunKeeps(c, Initial, run);
    hide Inv, IsRun, Run;
  }

  /** In every reachable state an arrival `Serve` is done with and did not drop is on some stream. */
  lemma NothingLostSilently(c: Config, run: seq<Action>, x: nat)
    requires IsRun(c, Initial, run) && x < Handled(Run(c, Initial, run)) && x !in Run(c, Initial, run).dropped
    ensures SentSomewhere(Run(c, Initial, run).tunnels, x)
  {
    InitialKept(c);
    RunKeeps(c, Initial, run);
  }

  /** In every reachable state every reply fits a packet and carries the addresses of the flow its stream was opened for. */
  lemma RepliesAddressed(c: Config, run: seq<Action>, k: nat)
    requires IsRun(c, Initial, run) && k < |Run(c, Initial, run).replies|
    ensures var s := Run(c, Initial, run); var r := s.replies[k];
      && r.stream in s.tunnels && |r.packet.payload| <= MAX_PAYLOAD
      && r.packet.src == s.tunnels[r.stream].flow.dst && r.packet.dst == s.tunnels[r.stream].flow.src
  {
    InitialKept(c);
    RunKeeps(c, Initial, run);
  }

  /**
   In every reachable state in which no header read on a stream was short, the replies from it and what is
   still to be read are the frames its client has sent, in order.
   */
  lemma RepliesInOrder(c: Config, run: seq<Action>, id: StreamId)
    requires IsRun(c, Initial, run) && id in Run(c, Initial, run).inbound
    requires !Run(c, Initial, run).inbound[id].shortRead
    ensures var s := Run(c, Initial, run); var i := s.inbound[id];
      Frames(i.received) == RepliesOn(s.replies, id) + Frames(Concat(i.chunks))
  {
    InitialKept(c);
    RunKeeps(c, Initial, run);
    var s := Run(c, Initial, run);
    assert Heard(s.inbound[id], RepliesOn(s.replies, id));
    FramesRoundTrip(RepliesOn(s.replies, id), Concat(s.inbound[id].chunks));
  }

  /**
   In every reachable state, short header reads included: what the loop of `forwardUDP` makes of all pieces a
   client has sent is what has been replied, and what it makes of those it has not read yet.
   */
  lemma RepliesAreLoop(c: Config, run: seq<Action>, id: StreamId)
    requires IsRun(c, Initial, run) && id in Run(c, Initial, run).inbound
    ensures var s := Run(c, Initial, run); var i := s.inbound[id];
      && NoEmpty(i.pieces) && NoEmpty(i.chunks) && Concat(i.pieces) == i.received
      && RepliesOf(i.pieces) == RepliesOn(s.replies, id) + RepliesOf(i.chunks)
  {
    InitialKept(c);
    RunKeeps(c, Initial, run);
    var s := Run(c, Initial, run);
    var i := s.inbound[id];
    assert Refines(i, RepliesOn(s.replies, id));
    assert SameLoop(i, RepliesOn(s.replies, id), []);
    assert i.pieces + [] == i.pieces && i.chunks + [] == i.chunks;
  }

  // The frames of the stream include one that is too long for a packet.
  predicate SentOversized(i: Inbound) {
    Fitting(Frames(i.received)) != Frames(i.received)
  }

  /**
   The process only dies where the loop of `forwardUDP` does, over all pieces of some stream: of a client's
   frame over 65507 bytes, or of bytes that a short header read made look like one.
   */
  lemma CrashCause(c: Config, run: seq<Action>)
    requires IsRun(c, Initial, run) && Run(c, Initial, run).crashed
    ensures var s := Run(c, Initial, run);
      exists id :: id in s.inbound && NoEmpty(s.inbound[id].pieces) && Crashes(s.inbound[id].pieces)
        && (s.inbound[id].shortRead || SentOversized(s.inbound[id]))
  {
    InitialKept(c);
    RunKeeps(c, Initial, run);
    var s := Run(c, Initial, run);
    var id :| id in s.inbound && OversizedNext(s.inbound[id]);
    assert Heard(s.inbound[id], RepliesOn(s.replies, id)) && Refines(s.inbound[id], RepliesOn(s.replies, id));
    hide IsRun, Run, Inv;
    CrashOfOne(s.inbound[id], RepliesOn(s.replies, id));
  }

  lemma CrashOfOne(i: Inbound, replied: seq<bytes>)
    requires Heard(i, replied) && Refines(i, replied) && OversizedNext(i)
    ensures Crashes(i.pieces) && (i.shortRead || SentOversized(i))
  {
    assert SameLoop(i, replied, []);
    assert i.pieces + [] == i.pieces && i.chunks + [] == i.chunks;
    assert Crashes(i.chunks);
    if !i.shortRead {
      FramesRoundTrip(replied, Concat(i.chunks));
      FirstFrame(i.chunks);
      assert Frames(i.received)[|replied|] == Body(i.chunks);
    }
  }

  /** In every reachable state a stream is closed exactly when its header went out and its forwarder is gone. */
  lemma ClosedWithForwarder(c: Config, run: seq<Action>, id: StreamId)
    requires IsRun(c, Initial, run) && id in Run(c, Initial, run).tunnels
    ensures var s := Run(c, Initial, run); s.tunnels[id].closed <==> s.tunnels[id].headed && id !in s.forwarders
  {
    InitialKept(c);
    RunKeeps(c, Initial, run);
    hide IsRun, Run, Inv;
  }

  lemma SparesUsed(c: Config, s: State, removed: set<Flow>, until: nat, key: Flow)
    requires TimesOk(s) && Enabled(c, s, Recycle(removed, until)) && key in s.sessions
    ensures key in s.lastUsed && s.sessions[key].lastActive == s.lastUsed[key] <= s.now <= until
    ensures key in removed ==> until - s.lastUsed[key] > c.timeout
    ensures key !in removed ==> s.now - s.lastUsed[key] <= c.timeout
    ensures key in Apply(c, s, Recycle(removed, until)).sessions <==> key !in removed
  {
  }

  /**
   In every reachable state a session in the table was last active when its flow was last used: when it was
   made, found for a datagram, or replied to. The recycler removes none that has been used within the
   timeout of the end of its walk, and leaves none that had not been used for so long at the start.
   */
  lemma RecycleSparesUsed(c: Config, run: seq<Action>, removed: set<Flow>, until: nat, key: Flow)
    requires IsRun(c, Initial, run) && Enabled(c, Run(c, Initial, run), Recycle(removed, until))
    requires key in Run(c, Initial, run).sessions
    ensures var s := Run(c, Initial, run);
      && key in s.lastUsed && s.sessions[key].lastActive == s.lastUsed[key] <= s.now <= until
      && (key in removed ==> until - s.lastUsed[key] > c.timeout)
      && (key !in removed ==> s.now - s.lastUsed[key] <= c.timeout)
      && (key in Apply(c, s, Recycle(removed, until)).sessions <==> key !in removed)
  {
    InitialKept(c);
    RunKeeps(c, Initial, run);
    hide IsRun, Run, Inv, Accounted, StreamsOrdered, CrashOk, LoopOk, TimesOk;
    SparesUsed(c, Run(c, Initial, run), removed, until, key);
  }

  /** The insert after relocking never replaces an entry, whatever happened while the lock was free. */
  lemma InsertNeverOverwrites(c: Config, run: seq<Action>)
    requires IsRun(c, Initial, run) && Enabled(c, Run(c, Initial, run), Insert)
    ensures CurrentFlow(Run(c, Initial, run)) !in Run(c, Initial, run).sessions
  {
    InitialKept(c);
    RunKeeps(c, Initial, run);
  }

  // ---------- what one datagram does ----------

  lemma RunNothing(c: Config, s: State)
    ensures IsRun(c, s, []) && Run(c, s, []) == s
  {
  }

  // A run by its first action.
  lemma RunStep(c: Config, s: State, run: seq<Action>, rest: seq<Action>)
    requires run != [] && run[1..] == rest && Enabled(c, s, run[0]) && IsRun(c, Apply(c, s, run[0]), rest)
    ensures IsRun(c, s, run) && Run(c, s, run) == Run(c, Apply(c, s, run[0]), rest)
  {
    hide Enabled, Apply;
  }

  // The state after `Serve` has opened a stream for the datagram.
  function Opened(c: Config, s: State, d: Arrival, id: StreamId): State {
    s.(arrivals := s.arrivals + [d], at := Inserting(id, s.now), lastUsed := s.lastUsed[d.flow := s.now],
       tunnels := s.tunnels[id := Tunnel(d.flow, |s.arrivals|, [], false, false, false, [])])
  }

  lemma OpeningSteps(c: Config, s: State, d: Arrival, id: StreamId)
    requires s.at == Reading && !s.crashed && |d.payload| <= 65507 && d.flow !in s.sessions && id !in s.tunnels
    ensures Enabled(c, s, Arrive(d))
    ensures var s1 := Apply(c, s, Arrive(d)); Enabled(c, s1, LookUp)
    ensures var s1 := Apply(c, s, Arrive(d)); var s2 := Apply(c, s1, LookUp);
      Enabled(c, s2, Open(id)) && Apply(c, s2, Open(id)) == Opened(c, s, d, id)
  {
  }

  lemma SendingSteps(c: Config, s: State, d: Arrival, id: StreamId)
    requires s.at == Reading && !s.crashed
    ensures var s3 := Opened(c, s, d, id);
      && Enabled(c, s3, Insert)
      && var s4 := Apply(c, s3, Insert);
         && Enabled(c, s4, WriteHeader)
         && var s5 := Apply(c, s4, WriteHeader);
            && Enabled(c, s5, WriteDatagram)
            && FirstDone(c, s, Apply(c, s5, WriteDatagram), d, id)
  {
    hide EncodeFrame;
    assert [] + EncodeFrame(c.header(d.flow)) == EncodeFrame(c.header(d.flow));
  }

  // A stream with the header and the datagram, known to the table, and a forwarder for the way back.
  predicate FirstDone(c: Config, s: State, t: State, d: Arrival, id: StreamId) {
    && t.at == Reading && t.arrivals == s.arrivals + [d] && t.sessions == s.sessions[d.flow := Session(id, s.now)]
    && id in t.tunnels && t.tunnels == s.tunnels[id := t.tunnels[id]] && t.tunnels[id].flow == d.flow
    && t.tunnels[id].written == EncodeFrame(c.header(d.flow)) + EncodeFrame(d.payload) && !t.tunnels[id].failed
    && t.forwarders == s.forwarders[id := Forwarder(d.flow, d.flow.dst, d.flow.src, false)]
  }

  /**
   The first datagram of a flow, up to 65507 bytes, whatever the state: a stream is opened that carries the
   header and the datagram, the table knows it, and a forwarder is started for the way back.
   */
  lemma FirstDatagram(c: Config, s: State, d: Arrival, id: StreamId)
    requires s.at == Reading && !s.crashed && |d.payload| <= 65507 && d.flow !in s.sessions && id !in s.tunnels
    ensures var run := [Arrive(d), LookUp, Open(id), Insert, WriteHeader, WriteDatagram];
      IsRun(c, s, run) && FirstDone(c, s, Run(c, s, run), d, id)
  {
    OpeningSteps(c, s, d, id);
    SendingSteps(c, s, d, id);
    hide Run, IsRun, Apply, Enabled, Opened, FirstDone;
    var s1 := Apply(c, s, Arrive(d));
    var s2 := Apply(c, s1, LookUp);
    var s3 := Apply(c, s2, Open(id));
    var s4 := Apply(c, s3, Insert);
    var s5 := Apply(c, s4, WriteHeader);
    RunNothing(c, Apply(c, s5, WriteDatagram));
    RunStep(c, s5, [WriteDatagram], []);
    RunStep(c, s4, [WriteHeader, WriteDatagram], [WriteDatagram]);
    RunStep(c, s3, [Insert, WriteHeader, WriteDatagram], [WriteHeader, WriteDatagram]);
    RunStep(c, s2, [Open(id), Insert, WriteHeader, WriteDatagram], [Insert, WriteHeader, WriteDatagram]);
    RunStep(c, s1, [LookUp, Open(id), Insert, WriteHeader, WriteDatagram], [Open(id), Insert, WriteHeader, WriteDatagram]);
    RunStep(c, s, [Arrive(d), LookUp, Open(id), Insert, WriteHeader, WriteDatagram],
            [LookUp, Open(id), Insert, WriteHeader, WriteDatagram]);
  }

  // The datagram is at the end of the stream of its session, which is active now.
  predicate NextDone(s: State, t: State, d: Arrival)
    requires d.flow in s.sessions && s.sessions[d.flow].stream in s.tunnels
  {
    var id := s.sessions[d.flow].stream;
    && t.at == Reading && t.arrivals == s.arrivals + [d] && t.sessions == s.sessions[d.flow := Session(id, s.now)]
    && id in t.tunnels && t.tunnels == s.tunnels[id := t.tunnels[id]] && t.forwarders == s.forwarders
    && t.tunnels[id].written == s.tunnels[id].written + EncodeFrame(d.payload)
  }

  lemma NextSteps(c: Config, s: State, d: Arrival)
    requires s.at == Reading && !s.crashed && |d.payload| <= 65507 && d.flow in s.sessions
    requires s.sessions[d.flow].stream in s.tunnels && !s.tunnels[s.sessions[d.flow].stream].closed
    ensures Enabled(c, s, Arrive(d))
    ensures var s1 := Apply(c, s, Arrive(d)); Enabled(c, s1, LookUp)
    ensures var s1 := Apply(c, s, Arrive(d)); var s2 := Apply(c, s1, LookUp);
      Enabled(c, s2, WriteDatagram) && NextDone(s, Apply(c, s2, WriteDatagram), d)
  {
    hide EncodeFrame;
  }

  /** A later datagram goes to the stream of the table, as long as that is open, and the session is active now. */
  lemma NextDatagram(c: Config, s: State, d: Arrival)
    requires s.at == Reading && !s.crashed && |d.payload| <= 65507 && d.flow in s.sessions
    requires s.sessions[d.flow].stream in s.tunnels && !s.tunnels[s.sessions[d.flow].stream].closed
    ensures var run := [Arrive(d), LookUp, WriteDatagram]; IsRun(c, s, run) && NextDone(s, Run(c, s, run), d)
  {
    NextSteps(c, s, d);
    hide Run, IsRun, Apply, Enabled, NextDone;
    var s1 := Apply(c, s, Arrive(d));
    var s2 := Apply(c, s1, LookUp);
    RunNothing(c, Apply(c, s2, WriteDatagram));
    RunStep(c, s2, [WriteDatagram], []);
    RunStep(c, s1, [LookUp, WriteDatagram], [WriteDatagram]);
    RunStep(c, s, [Arrive(d), LookUp, WriteDatagram], [LookUp, WriteDatagram]);
  }

  // A frame at the front of a stream whose forwarder is in its loop.
  predicate FrameNext(s: State, id: StreamId, body: bytes) {
    && id in s.forwarders && !s.forwarders[id].leaving && id in s.inbound
    && var chunks := s.inbound[id].chunks;
       chunks != [] && |chunks[0]| >= 2 && BodyThere(chunks) && Body(chunks) == body
  }

  /** A client's frame of up to 65507 bytes is sent on with the addresses of the forwarder; a longer one kills. */
  lemma FrameOutcome(c: Config, s: State, id: StreamId, body: bytes)
    requires !s.crashed && FrameNext(s, id, body)
    ensures |body| <= 65507 ==>
      && Enabled(c, s, SendReply(id)) && !Enabled(c, s, Crash(id))
      && Apply(c, s, SendReply(id)).replies
         == s.replies + [Reply(id, Datagram(s.forwarders[id].from, s.forwarders[id].to, body))]
    ensures |body| > 65507 ==>
      && Enabled(c, s, Crash(id)) && !Enabled(c, s, SendReply(id))
      && forall a: Action :: !Enabled(c, Apply(c, s, Crash(id)), a)
  {
    hide BodyThere, Body, AfterBody;
  }

  /** `Serve` is never stuck: away from its read it has a step to do, and the clock goes on. */
  lemma ServeGoesOn(c: Config, run: seq<Action>)
    requires IsRun(c, Initial, run) && !Run(c, Initial, run).crashed
    ensures var s := Run(c, Initial, run);
      && (s.at != Reading ==> exists a: Action :: OfServe(a) && Enabled(c, s, a))
      && Enabled(c, s, Tick) && Apply(c, s, Tick).now == s.now + 1
  {
    InitialKept(c);
    RunKeeps(c, Initial, run);
    var s := Run(c, Initial, run);
    hide IsRun, Run, Accounted, StreamsOrdered, CrashOk, LoopOk, TimesOk, ClosedOk;
    assert ServeOk(s);
    hide Kept;
    ServeHasStep(c, s);
  }

  lemma ServeHasStep(c: Config, s: State)
    requires ServeOk(s) && !s.crashed
    ensures s.at != Reading ==> exists a: Action :: OfServe(a) && Enabled(c, s, a)
    ensures Enabled(c, s, Tick) && Apply(c, s, Tick).now == s.now + 1
  {
    match s.at
    case Reading =>
    case LookingUp => assert OfServe(LookUp) && Enabled(c, s, LookUp);
    case Opening => assert OfServe(GiveUp) && Enabled(c, s, GiveUp);
    case Inserting(_, _) => assert OfServe(Insert) && Enabled(c, s, Insert);
    case Heading(_) => assert OfServe(FailHeader([])) && Enabled(c, s, FailHeader([]));
    case Sending(_) => assert OfServe(FailDatagram([])) && Enabled(c, s, FailDatagram([]));
  }
}
