/**
 The asynchronous logger of `internal/logs/log.go` as a step system: producers that send on a bounded
 channel, the consumer goroutine `startLogger` with its drain loop, and one caller at a time of `Flush`
 or `Close`, who waits on the wait group. A run is any sequence of enabled actions.
 */
module AsyncLog {
  import opened Basics

  datatype Signal = Flush | Close

  // The consumer: in its select, writing a message to the outputs from number k on, draining the
  // channel for a signal, with the outputs flushed, and with them destroyed. `drain` is the signal on
  // whose behalf a message is written, if any.
  datatype Consumer<M> =
    | Selecting
    | Writing(m: M, k: nat, drain: Option<Signal>)
    | Draining(signal: Signal)
    | Flushed(signal: Signal)
    | Destroyed
    | GameOver

  // The caller of Flush or Close. `before` counts the messages enqueued when the call began.
  datatype Caller =
    | Idle
    | Calling(signal: Signal, before: nat)
    | Waiting(signal: Signal, before: nat)
    | Released(signal: Signal, before: nat)
    | Closed(before: nat)

  datatype State<M> = State(
    capacity: nat,
    chan: seq<M>,
    chanOpen: bool,
    signal: Option<Signal>,
    wg: int,
    consumer: Consumer<M>,
    caller: Caller,
    outputs: seq<seq<M>>,   // what each adapter has been given
    destroyed: bool,
    // history: all messages sent, those every output has, and how many of these had been written when
    // the adapters were last flushed; and for the calls of Flush that have returned, their counts
    enqueued: seq<M>,
    written: seq<M>,
    synced: nat,
    returned: seq<nat>)

  /** After `Async` with n adapters: the wait group holds one. */
  function Initial<M>(n: nat, capacity: nat): State<M> {
    State(capacity, [], true, None, 1, Selecting, Idle, seq(n, _ => []), false, [], [], 0, [])
  }

  datatype Action<M> =
    | Enqueue(m: M)
    | Receive
    | WriteOne
    | WriteDone
    | TakeSignal
    | DrainOne
    | FlushOutputs
    | Destroy
    | Done
    | Begin(signal: Signal)
    | Send
    | Wake
    | Return

  predicate Enabled<M>(s: State<M>, a: Action<M>) {
    match a
    case Enqueue(_) => s.chanOpen && |s.chan| < s.capacity
    case Receive => s.consumer.Selecting? && s.chan != []
    case WriteOne => s.consumer.Writing? && s.consumer.k < |s.outputs|
    case WriteDone => s.consumer.Writing? && s.consumer.k >= |s.outputs|
    case TakeSignal => s.consumer.Selecting? && s.signal.Some?
    case DrainOne => s.consumer.Draining? && s.chan != []
    case FlushOutputs => s.consumer.Draining? && s.chan == []
    case Destroy => s.consumer == Flushed(Close)
    case Done => s.consumer == Flushed(Flush) || s.consumer == Destroyed
    case Begin(_) => s.caller == Idle
    case Send => s.caller.Calling? && s.signal == None
    case Wake => s.caller.Waiting? && s.wg == 0
    case Return => s.caller.Released?
  }

  function Apply<M>(s: State<M>, a: Action<M>): State<M>
    requires Enabled(s, a)
  {
    match a
    case Enqueue(m) => s.(chan := s.chan + [m], enqueued := s.enqueued + [m])
    // the two branches of the select, and the loops of writeToLoggers and flush
    case Receive => s.(chan := s.chan[1..], consumer := Writing(s.chan[0], 0, None))
    case WriteOne =>
      var k := s.consumer.k;
      s.(outputs := s.outputs[k := s.outputs[k] + [s.consumer.m]],
         consumer := Writing(s.consumer.m, k + 1, s.consumer.drain))
    case WriteDone =>
      s.(written := s.written + [s.consumer.m],
         consumer := match s.consumer.drain case None => Selecting case Some(sg) => Draining(sg))
    case TakeSignal => s.(consumer := Draining(s.signal.value), signal := None)
    case DrainOne => s.(chan := s.chan[1..], consumer := Writing(s.chan[0], 0, Some(s.consumer.signal)))
    case FlushOutputs => s.(synced := |s.written|, consumer := Flushed(s.consumer.signal))
    case Destroy => s.(destroyed := true, consumer := Destroyed)
    case Done => s.(wg := s.wg - 1, consumer := if s.consumer == Destroyed then GameOver else Selecting)
    // Flush and Close
    case Begin(sg) => s.(caller := Calling(sg, |s.enqueued|))
    case Send => s.(signal := Some(s.caller.signal), caller := Waiting(s.caller.signal, s.caller.before))
    case Wake => s.(caller := Released(s.caller.signal, s.caller.before))
    case Return =>
      match s.caller.signal
      case Flush => s.(wg := s.wg + 1, caller := Idle, returned := s.returned + [s.caller.before])
      case Close => s.(chanOpen := false, caller := Closed(s.caller.before))
  }

  // ---------- what every interleaving keeps ----------

  // The message taken from the channel that not all outputs have yet.
  function InFlight<M>(s: State<M>): seq<M> {
    if s.consumer.Writing? then [s.consumer.m] else []
  }

  /** Every message sent is written, in flight or in the channel, in the order of sending. */
  ghost predicate Conserved<M>(s: State<M>) {
    s.enqueued == s.written + InFlight(s) + s.chan
  }

  /** Every output has exactly the written messages, and the one in flight if its turn has come. */
  ghost predicate OutputsOk<M>(s: State<M>) {
    && (s.consumer.Writing? ==> s.consumer.k <= |s.outputs|)
    && forall j :: 0 <= j < |s.outputs| ==>
         s.outputs[j] == s.written + if s.consumer.Writing? && j < s.consumer.k then [s.consumer.m] else []
  }

  // The signal the consumer is at work on.
  function Serving<M>(c: Consumer<M>): Option<Signal> {
    match c
    case Selecting => None
    case Writing(_, _, drain) => drain
    case Draining(sg) => Some(sg)
    case Flushed(sg) => Some(sg)
    case Destroyed => Some(Close)
    case GameOver => None
  }

  // Everything enqueued before the call has been written and flushed.
  predicate Served<M>(s: State<M>, before: nat) {
    before <= s.synced <= |s.written|
  }

  // One call at a time: its signal is in the channel, or with the consumer, or has been answered.
  predicate Handshake<M>(s: State<M>) {
    match s.caller
    case Idle => s.signal == None && Serving(s.consumer) == None && s.wg == 1 && !s.consumer.GameOver?
    case Calling(_, before) =>
      && s.signal == None && Serving(s.consumer) == None && s.wg == 1 && !s.consumer.GameOver?
      && before <= |s.enqueued|
    case Waiting(sg, before) =>
      && before <= |s.enqueued|
      && if s.wg == 0
         then s.signal == None && Serving(s.consumer) == None && Served(s, before)
              && (s.consumer.GameOver? <==> sg == Close)
         else s.wg == 1 && !s.consumer.GameOver?
              && ((s.signal == Some(sg) && Serving(s.consumer) == None) || (s.signal == None && Serving(s.consumer) == Some(sg)))
              && (s.consumer.Flushed? || s.consumer.Destroyed? ==> Served(s, before))
    case Released(sg, before) =>
      s.wg == 0 && s.signal == None && Serving(s.consumer) == None && Served(s, before)
      && (s.consumer.GameOver? <==> sg == Close)
    case Closed(before) => s.wg == 0 && s.signal == None && s.consumer.GameOver? && Served(s, before)
  }

  predicate Lifetime<M>(s: State<M>) {
    && (s.destroyed <==> s.consumer.Destroyed? || s.consumer.GameOver?)
    && (s.destroyed || s.consumer.Flushed? ==> s.synced == |s.written|)
    && s.synced <= |s.written|
    && |s.chan| <= s.capacity && (s.chanOpen <==> !s.caller.Closed?)
    && forall k :: 0 <= k < |s.returned| ==> s.returned[k] <= s.synced
  }

  ghost predicate Inv<M>(s: State<M>) {
    Conserved(s) && OutputsOk(s) && Handshake(s) && Lifetime(s)
  }

  lemma InitialInv<M>(n: nat, capacity: nat)
    ensures Inv(Initial<M>(n, capacity))
  {
  }

  lemma StepConserves<M>(s: State<M>, a: Action<M>)
    requires Conserved(s) && OutputsOk(s) && Enabled(s, a)
    ensures Conserved(Apply(s, a)) && OutputsOk(Apply(s, a))
  {
    StepConservesMessages(s, a);
    StepConservesOutputs(s, a);
    hide Apply, Enabled, Conserved, OutputsOk;
  }

  lemma StepConservesMessages<M>(s: State<M>, a: Action<M>)
    requires Conserved(s) && Enabled(s, a)
    ensures Conserved(Apply(s, a))
  {
    match a
    case Enqueue(m) => ConcatAssoc(s.written + InFlight(s), s.chan, [m]);
    case Receive => assert s.chan == [s.chan[0]] + s.chan[1..];
    case DrainOne => assert s.chan == [s.chan[0]] + s.chan[1..];
    case _ =>
  }

  lemma StepConservesOutputs<M>(s: State<M>, a: Action<M>)
    requires OutputsOk(s) && Enabled(s, a)
    ensures OutputsOk(Apply(s, a))
  {
  }

  lemma StepKeepsHandshake<M>(s: State<M>, a: Action<M>)
    requires Inv(s) && Enabled(s, a)
    ensures Handshake(Apply(s, a))
  {
    hide OutputsOk;
  }

  lemma StepKeepsLifetime<M>(s: State<M>, a: Action<M>)
    requires Inv(s) && Enabled(s, a)
    ensures Lifetime(Apply(s, a))
  {
    hide OutputsOk, Conserved;
  }

  // ---------- runs ----------

  predicate IsRun<M>(s: State<M>, run: seq<Action<M>>)
    decreases |run|
  {
    run == [] || (Enabled(s, run[0]) && IsRun(Apply(s, run[0]), run[1..]))
  }

  function Run<M>(s: State<M>, run: seq<Action<M>>): State<M>
    requires IsRun(s, run)
    decreases |run|
  {
    if run == [] then s else Run(Apply(s, run[0]), run[1..])
  }

  lemma {:induction false} RunKeeps<M>(s: State<M>, run: seq<Action<M>>)
    requires Inv(s) && IsRun(s, run)
    ensures Inv(Run(s, run)) && |Run(s, run).outputs| == |s.outputs|
    decreases |run|
  {
    if run != [] {
      StepConserves(s, run[0]);
      StepKeepsHandshake(s, run[0]);
      StepKeepsLifetime(s, run[0]);
      RunKeeps(Apply(s, run[0]), run[1..]);
    }
  }

  /** Every output holds a prefix of the messages sent: each exactly once, in the channel's order. */
  lemma OutputsArePrefixes<M>(n: nat, capacity: nat, run: seq<Action<M>>, j: nat)
    requires IsRun(Initial<M>(n, capacity), run) && j < n
    ensures var s := Run(Initial<M>(n, capacity), run);
      |s.outputs| == n && s.outputs[j] <= s.enqueued && |s.enqueued| - |s.outputs[j]| <= 1 + |s.chan|
  {
    InitialInv<M>(n, capacity);
    RunKeeps(Initial<M>(n, capacity), run);
  }

  // Output j has been given the first n messages sent, and has been flushed after that.
  ghost predicate HasFirst<M>(s: State<M>, j: nat, n: nat) {
    && j < |s.outputs| && n <= s.synced <= |s.outputs[j]| && n <= |s.enqueued|
    && s.outputs[j][..n] == s.enqueued[..n]
  }

  /** Whenever a call of Flush has returned, every output has all messages sent before the call, flushed. */
  lemma FlushIsComplete<M>(n: nat, capacity: nat, run: seq<Action<M>>, call: nat, j: nat)
    requires IsRun(Initial<M>(n, capacity), run) && j < n
    requires call < |Run(Initial<M>(n, capacity), run).returned|
    ensures var s := Run(Initial<M>(n, capacity), run); HasFirst(s, j, s.returned[call])
  {
    InitialInv<M>(n, capacity);
    RunKeeps(Initial<M>(n, capacity), run);
    ReturnedIsComplete(Run(Initial<M>(n, capacity), run), call, j);
    hide Inv, HasFirst;
  }

  lemma ReturnedIsComplete<M>(s: State<M>, call: nat, j: nat)
    requires Inv(s) && call < |s.returned| && j < |s.outputs|
    ensures HasFirst(s, j, s.returned[call])
  {
    hide Handshake;
  }

  /** The adapters are destroyed only when they have, flushed, all messages sent before Close was called. */
  lemma CloseIsComplete<M>(n: nat, capacity: nat, run: seq<Action<M>>, j: nat)
    requires IsRun(Initial<M>(n, capacity), run) && j < n
    requires Run(Initial<M>(n, capacity), run).destroyed
    ensures var s := Run(Initial<M>(n, capacity), run);
      && !s.caller.Idle? && !s.caller.Calling?
      && HasFirst(s, j, s.caller.before) && s.synced == |s.outputs[j]|
  {
    InitialInv<M>(n, capacity);
    RunKeeps(Initial<M>(n, capacity), run);
    DestroyedIsComplete(Run(Initial<M>(n, capacity), run), j);
    hide Inv, HasFirst;
  }

  lemma DestroyedIsComplete<M>(s: State<M>, j: nat)
    requires Inv(s) && s.destroyed && j < |s.outputs|
    ensures !s.caller.Idle? && !s.caller.Calling? && HasFirst(s, j, s.caller.before) && s.synced == |s.outputs[j]|
  {
  }

  /** The wait group never goes below zero, and no two signals are ever under way. */
  lemma HandshakeHolds<M>(n: nat, capacity: nat, run: seq<Action<M>>)
    requires IsRun(Initial<M>(n, capacity), run)
    ensures var s := Run(Initial<M>(n, capacity), run);
      && 0 <= s.wg <= 1 && (s.signal == None || Serving(s.consumer) == None)
      && |s.chan| <= s.capacity && (s.chanOpen <==> !s.caller.Closed?)
  {
    InitialInv<M>(n, capacity);
    RunKeeps(Initial<M>(n, capacity), run);
  }

  // ---------- what was sent before a call ----------

  lemma {:induction false} RunConcat<M>(s: State<M>, run: seq<Action<M>>, more: seq<Action<M>>)
    ensures IsRun(s, run + more) <==> IsRun(s, run) && IsRun(Run(s, run), more)
    ensures IsRun(s, run + more) ==> Run(s, run + more) == Run(Run(s, run), more)
    decreases |run|
  {
    hide Enabled, Apply;
    if run == [] {
      assert run + more == more;
    } else {
      assert (run + more)[1..] == run[1..] + more;
      if Enabled(s, run[0]) {
        RunConcat(Apply(s, run[0]), run[1..], more);
      }
    }
  }

  // The call that began when n messages had been sent is under way, or is Flush's number k and has returned.
  predicate Tracks<M>(s: State<M>, sg: Signal, n: nat, k: nat) {
    match s.caller
    case Idle => Returned(s, sg, n, k)
    case Calling(signal, before) => (signal == sg && before == n && |s.returned| == k) || Returned(s, sg, n, k)
    case Waiting(signal, before) => (signal == sg && before == n && |s.returned| == k) || Returned(s, sg, n, k)
    case Released(signal, before) => (signal == sg && before == n && |s.returned| == k) || Returned(s, sg, n, k)
    case Closed(before) => (sg == Close && before == n) || Returned(s, sg, n, k)
  }

  predicate Returned<M>(s: State<M>, sg: Signal, n: nat, k: nat) {
    sg == Flush && k < |s.returned| && s.returned[k] == n
  }

  lemma StepTracks<M>(s: State<M>, a: Action<M>, sg: Signal, n: nat, k: nat)
    requires Tracks(s, sg, n, k) && Enabled(s, a)
    ensures Tracks(Apply(s, a), sg, n, k) && s.enqueued <= Apply(s, a).enqueued
  {
  }

  lemma {:induction false} RunTracks<M>(s: State<M>, run: seq<Action<M>>, sg: Signal, n: nat, k: nat)
    requires Tracks(s, sg, n, k) && IsRun(s, run)
    ensures Tracks(Run(s, run), sg, n, k) && s.enqueued <= Run(s, run).enqueued
    decreases |run|
  {
    if run != [] {
      hide Tracks, Enabled, Apply;
      StepTracks(s, run[0], sg, n, k);
      RunTracks(Apply(s, run[0]), run[1..], sg, n, k);
    }
  }

  lemma BeginTracks<M>(n: nat, capacity: nat, run: seq<Action<M>>, sg: Signal, more: seq<Action<M>>)
    requires IsRun(Initial<M>(n, capacity), run + [Begin(sg)] + more)
    ensures IsRun(Initial<M>(n, capacity), run)
    ensures var s, t := Run(Initial<M>(n, capacity), run), Run(Initial<M>(n, capacity), run + [Begin(sg)] + more);
      Tracks(t, sg, |s.enqueued|, |s.returned|) && s.enqueued <= t.enqueued
  {
    var start := Initial<M>(n, capacity);
    RunConcat(start, run + [Begin(sg)], more);
    var call: seq<Action<M>> := [Begin(sg)];
    RunConcat(start, run, call);
    var s := Run(start, run);
    assert call[1..] == [];
    var u := Apply(s, Begin(sg));
    assert Run(start, run + [Begin(sg)]) == u;
    RunTracks(u, more, sg, |s.enqueued|, |s.returned|);
  }

  // The first messages output j has been given, and flushed, are these.
  ghost predicate HasAll<M>(s: State<M>, j: nat, sent: seq<M>) {
    j < |s.outputs| && sent <= s.outputs[j] && |sent| <= s.synced
  }

  /** Once a call of Flush has returned, every output has all that was sent before the call, and has been flushed. */
  lemma FlushWaits<M>(n: nat, capacity: nat, run: seq<Action<M>>, more: seq<Action<M>>, j: nat)
    requires IsRun(Initial<M>(n, capacity), run + [Begin(Flush)] + more) && j < n
    ensures IsRun(Initial<M>(n, capacity), run)
    ensures var s, t := Run(Initial<M>(n, capacity), run), Run(Initial<M>(n, capacity), run + [Begin(Flush)] + more);
      |t.returned| > |s.returned| ==> HasAll(t, j, s.enqueued)
  {
    BeginTracks(n, capacity, run, Flush, more);
    var s, t := Run(Initial<M>(n, capacity), run), Run(Initial<M>(n, capacity), run + [Begin(Flush)] + more);
    if |t.returned| > |s.returned| {
      FlushIsComplete(n, capacity, run + [Begin(Flush)] + more, |s.returned|, j);
      hide Run, IsRun;
      assert t.returned[|s.returned|] == |s.enqueued|;
    }
  }

  /** When the adapters are destroyed, every output has all that was sent before Close was called, and has been flushed. */
  lemma CloseWaits<M>(n: nat, capacity: nat, run: seq<Action<M>>, more: seq<Action<M>>, j: nat)
    requires IsRun(Initial<M>(n, capacity), run + [Begin(Close)] + more) && j < n
    ensures IsRun(Initial<M>(n, capacity), run)
    ensures var s, t := Run(Initial<M>(n, capacity), run), Run(Initial<M>(n, capacity), run + [Begin(Close)] + more);
      t.destroyed ==> HasAll(t, j, s.enqueued)
  {
    BeginTracks(n, capacity, run, Close, more);
    var t := Run(Initial<M>(n, capacity), run + [Begin(Close)] + more);
    if t.destroyed {
      CloseIsComplete(n, capacity, run + [Begin(Close)] + more, j);
      hide Run, IsRun;
    }
  }

  // Steps of the consumer and of the caller, not of the producers.
  predicate OfCall<M>(a: Action<M>) {
    !a.Enqueue? && !a.Receive? && !a.Begin?
  }

  /** A call of Flush or Close is never stuck: until it has returned, the consumer or the caller has a step to do for it. */
  lemma CallGoesOn<M>(n: nat, capacity: nat, run: seq<Action<M>>)
    requires IsRun(Initial<M>(n, capacity), run)
    requires var s := Run(Initial<M>(n, capacity), run); !s.caller.Idle? && !s.caller.Closed?
    ensures exists a: Action<M> :: OfCall(a) && Enabled(Run(Initial<M>(n, capacity), run), a)
  {
    InitialInv<M>(n, capacity);
    RunKeeps(Initial<M>(n, capacity), run);
    var s := Run(Initial<M>(n, capacity), run);
    assert Handshake(s);
    hide IsRun, Run, Inv;
    match s.caller
    case Calling(_, _) => assert OfCall<M>(Send) && Enabled(s, Send);
    case Released(_, _) => assert OfCall<M>(Return) && Enabled(s, Return);
    case Waiting(_, _) =>
      if s.wg == 0 {
        assert OfCall<M>(Wake) && Enabled(s, Wake);
      } else {
        ConsumerGoesOn(s);
      }
  }

  lemma ConsumerGoesOn<M>(s: State<M>)
    requires !s.consumer.GameOver? && (s.consumer.Selecting? ==> s.signal.Some?)
    ensures exists a: Action<M> :: OfCall(a) && Enabled(s, a) && !a.Send? && !a.Wake? && !a.Return?
  {
    match s.consumer
    case Selecting => assert OfCall<M>(TakeSignal) && Enabled(s, TakeSignal);
    case Writing(_, k, _) =>
      if k < |s.outputs| {
        assert OfCall<M>(WriteOne) && Enabled(s, WriteOne);
      } else {
        assert OfCall<M>(WriteDone) && Enabled(s, WriteDone);
      }
    case Draining(_) =>
      if s.chan != [] {
        assert OfCall<M>(DrainOne) && Enabled(s, DrainOne);
      } else {
        assert OfCall<M>(FlushOutputs) && Enabled(s, FlushOutputs);
      }
    case Flushed(sg) =>
      if sg == Close {
        assert OfCall<M>(Destroy) && Enabled(s, Destroy);
      } else {
        assert OfCall<M>(Done) && Enabled(s, Done);
      }
    case Destroyed => assert OfCall<M>(Done) && Enabled(s, Done);
  }

  predicate OfConsumer<M>(a: Action<M>) {
    (OfCall(a) && !a.Send? && !a.Wake? && !a.Return?) || a.Receive?
  }

  /** While messages wait and the consumer has not ended, it has a step to do. */
  lemma MessagesGoOn<M>(s: State<M>)
    requires s.chan != [] && !s.consumer.GameOver?
    ensures exists a: Action<M> :: OfConsumer(a) && Enabled(s, a)
  {
    if s.consumer.Selecting? {
      assert OfConsumer<M>(Receive) && Enabled(s, Receive);
    } else {
      ConsumerGoesOn(s);
      var a: Action<M> :| OfCall(a) && Enabled(s, a) && !a.Send? && !a.Wake? && !a.Return?;
      assert OfConsumer(a);
    }
  }
}
