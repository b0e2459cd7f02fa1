/** The shape of every reachable session: at most one operation besides the timer,
    always for the last message, with the stages completed in strict order. */
module RelayShape {
  import opened Search
  import opened Http
  import opened Relay

  /** How far the last message has come: 0 for a request being read, 1 for a
      request being written, 2 and 3 the same for the reply, 4 for a reply that
      was written. */
  function Stage(s: State): int {
    |s.log.marks| - 4 * (|s.messages| - 1)
  }

  function StageOf(op: Op): nat {
    match op
    case ReadHeader(dir, _, _, _) => ReadStage(dir)
    case ReadCounted(dir, _, _, _, _) => ReadStage(dir)
    case ReadChunks(dir, _, _, _, _) => ReadStage(dir)
    case Resolve(_, _) => 1
    case Connect(_, _) => 1
    case Write(dir, _, _, _, _) => ReadStage(dir) + 1
  }

  /** The references of an operation were captured when `messages` had its present size. */
  predicate Fixed(s: State, op: Op) {
    op.Resolve? || op.Connect? || op.epoch == |s.messages|
  }

  ghost predicate Base(s: State) {
    && |s.messages| >= 1
    && s.timers <= 1
    && 0 <= Stage(s) <= 4
    && forall j :: 0 <= j < |s.log.marks| ==> s.log.marks[j] == Mark(j % 4, j / 4)
  }

  ghost predicate Holds(s: State, op: Op) {
    && op.id == |s.messages| - 1
    && Stage(s) == StageOf(op)
    && Fixed(s, op)
    && Fits(s, op)
  }

  /** What every reachable state satisfies. */
  ghost predicate Shape(s: State) {
    && Base(s)
    && |s.pending| <= 1
    && (s.pending != [] ==> Holds(s, s.pending[0]))
  }

  /** Between two operations, while a handler runs. */
  ghost predicate Ready(s: State, stage: nat) {
    Base(s) && s.pending == [] && Stage(s) == stage
  }

  lemma FreshShape()
    ensures Shape(Start(Fresh()))
  {
  }

  lemma FinishReady(s: State, k: nat)
    requires Shape(s) && k < |s.pending|
    ensures k == 0 && Ready(Finish(s, k), StageOf(s.pending[0]))
  {
  }

  lemma DoneReady(s: State, stage: nat)
    requires Ready(s, stage) && stage < 4
    ensures Ready(Done(s, stage, |s.messages| - 1), stage + 1)
  {
    var t := Done(s, stage, |s.messages| - 1);
    forall j | 0 <= j < |t.log.marks| ensures t.log.marks[j] == Mark(j % 4, j / 4) {
      if j == |s.log.marks| {
        assert j == 4 * (|s.messages| - 1) + stage;
      }
    }
  }

  lemma MessageReadShape(s: State, dir: Dir)
    requires Ready(s, ReadStage(dir))
    ensures Shape(MessageRead(s, dir, |s.messages| - 1))
  {
    DoneReady(s, ReadStage(dir));
  }

  lemma ReadBodyShape(s: State, dir: Dir, header: string)
    requires Ready(s, ReadStage(dir))
    ensures Shape(ReadBody(s, dir, |s.messages| - 1, |s.messages|, header))
  {
    hide IdentifyBody, Declared, Find, MessageRead;
    MessageReadShape(s, dir);
  }

  /** Handlers that start nothing. */
  lemma NothingStartedShape(s: State, stage: nat, host: string)
    requires Ready(s, stage)
    ensures Shape(s) && Shape(Close(s)) && Shape(Throw(s)) && Ready(SetHost(s, host), stage)
  {
  }

  lemma HeaderReadShape(s: State, dir: Dir, ec: ErrorCode, headerLen: nat, verdict: Verdict)
    requires Ready(s, ReadStage(dir)) && headerLen <= |s.Text(dir, |s.messages| - 1)|
    ensures Shape(HeaderRead(s, dir, |s.messages| - 1, |s.messages|, ec, headerLen, verdict))
  {
    hide ReadBody, ParseField, Base, Shape;
    var text := s.Text(dir, |s.messages| - 1);
    NothingStartedShape(s, ReadStage(dir), "");
    if dir.Request? {
      var parsed := ParseField(text, "host");
      if parsed.Value? {
        NothingStartedShape(s, 0, parsed.text);
        ReadBodyShape(SetHost(s, parsed.text), dir, text[..headerLen]);
      }
    } else {
      ReadBodyShape(s, dir, text[..headerLen]);
    }
  }

  lemma BodyReadShape(s: State, dir: Dir, body: string, ec: ErrorCode)
    requires Ready(s, ReadStage(dir))
    ensures Shape(BodyRead(s, dir, |s.messages| - 1, body, ec))
  {
    hide MessageRead;
    MessageReadShape(Append(s, dir, |s.messages| - 1, body), dir);
  }

  lemma MessageWrittenShape(s: State, dir: Dir, ec: ErrorCode)
    requires Ready(s, ReadStage(dir) + 1)
    ensures Shape(MessageWritten(s, dir, |s.messages| - 1, ec))
  {
    DoneReady(s, ReadStage(dir) + 1);
  }

  lemma HeaderReceivedShape(s: State, chunk: string)
    requires Shape(s) && s.pending != [] && s.pending[0].ReadHeader?
    ensures Shape(HeaderReceived(s, 0, chunk))
    ensures Ready(HeaderFinished(s, 0, chunk), ReadStage(s.pending[0].dir))
  {
    var t := HeaderReceived(s, 0, chunk);
    FinishReady(Headed(t, s.pending[0].dir, |t.Text(s.pending[0].dir, s.pending[0].id)|), 0);
  }

  /** What receiving a header does not change. */
  lemma HeaderReceivedKeeps(s: State, chunk: string)
    requires Shape(s) && s.pending != [] && s.pending[0].ReadHeader?
    ensures var t := HeaderReceived(s, 0, chunk);
            t.stopped == s.stopped && t.timers == s.timers && t.failed == s.failed && t.log.hosts == s.log.hosts
    ensures var u := HeaderFinished(s, 0, chunk);
            && u.stopped == s.stopped && u.timers == s.timers && u.failed == s.failed
            && u.log.hosts == s.log.hosts && u.log.marks == s.log.marks && u.pending == []
            && u.log.started == s.log.started && u.log.completed == s.log.completed + 1
  {
  }

  lemma HeaderProgressShape(s: State, pos: nat)
    requires Shape(s) && |s.pending| == 1 && s.pending[0].ReadHeader?
    requires pos <= |s.Text(s.pending[0].dir, s.pending[0].id)|
    ensures var op := s.pending[0];
            Shape(s.(pending := s.pending[0 := ReadHeader(op.dir, op.id, op.epoch, pos)]))
  {
  }

  lemma HeaderArrivedShape(s: State, chunk: string, verdict: Verdict)
    requires Shape(s) && s.pending != [] && s.pending[0].ReadHeader?
    ensures Shape(HeaderArrived(s, 0, chunk, verdict))
  {
    hide PartialSearch, HeaderRead, HeaderReceived, HeaderFinished, Base;
    HeaderReceivedShape(s, chunk);
    var op, t := s.pending[0], HeaderReceived(s, 0, chunk);
    var scan := PartialSearch(t.Text(op.dir, op.id), HEADER_END, op.pos);
    if scan.full {
      HeaderReadShape(HeaderFinished(s, 0, chunk), op.dir, Success, scan.pos + |HEADER_END|, verdict);
    } else {
      HeaderProgressShape(t, scan.pos);
    }
  }

  lemma CountedArrivedShape(s: State, chunk: string)
    requires Shape(s) && s.pending != [] && s.pending[0].ReadCounted?
    requires |s.pending[0].body| + |chunk| <= s.pending[0].limit
    ensures Shape(CountedArrived(s, 0, chunk))
  {
    hide BodyRead;
    var op, t := s.pending[0], Receive(s, s.pending[0].dir, chunk);
    FinishReady(t, 0);
    BodyReadShape(Finish(t, 0), op.dir, op.body + chunk, Success);
  }

  lemma ChunksArrivedShape(s: State, chunk: string)
    requires Shape(s) && s.pending != [] && s.pending[0].ReadChunks?
    ensures Shape(ChunksArrived(s, 0, chunk))
  {
    hide BodyRead, PartialSearch;
    var op, t := s.pending[0], Receive(s, s.pending[0].dir, chunk);
    FinishReady(t, 0);
    BodyReadShape(Finish(t, 0), op.dir, op.body + chunk, Success);
  }

  lemma AcceptedShape(s: State, k: nat, count: nat)
    requires Shape(s) && Enabled(s, Accepted(k, count))
    ensures Shape(Step(s, Accepted(k, count)))
  {
    hide MessageWritten;
    var op := s.pending[k];
    var t := Deliver(s, op.dir, op.data[op.sent..op.sent + count]);
    FinishReady(t, k);
    MessageWrittenShape(Finish(t, 0), op.dir, Success);
  }

  lemma BrokenShape(s: State, k: nat, ec: ErrorCode, verdict: Verdict)
    requires Shape(s) && Enabled(s, Broken(k, ec, verdict))
    ensures Shape(Step(s, Broken(k, ec, verdict)))
  {
    hide MessageWritten, HeaderRead, BodyRead;
    FinishReady(s, k);
    var t := Finish(s, 0);
    match s.pending[0]
    case ReadHeader(dir, _, _, _) => HeaderReadShape(t, dir, ec, 0, verdict);
    case ReadCounted(dir, _, _, body, _) => BodyReadShape(t, dir, body, ec);
    case ReadChunks(dir, _, _, body, _) => BodyReadShape(t, dir, body, ec);
    case Write(dir, _, _, _, _) => MessageWrittenShape(t, dir, ec);
  }

  lemma ServerResolvedShape(s: State, ec: ErrorCode, endpoints: seq<Endpoint>, open: bool)
    requires Ready(s, 1)
    ensures Shape(ServerResolved(s, |s.messages| - 1, ec, endpoints, open))
  {
  }

  lemma ServerConnectedShape(s: State, ec: ErrorCode, endpoint: Endpoint, open: bool)
    requires Ready(s, 1)
    ensures Shape(ServerConnected(s, |s.messages| - 1, ec, endpoint, open))
  {
  }

  lemma ConnectingShape(s: State, e: Event)
    requires Shape(s) && Enabled(s, e) && (e.Resolved? || e.Connected? || e.TimerDone?)
    ensures Shape(Step(s, e))
  {
    hide ServerResolved, ServerConnected;
    match e
    case Resolved(k, ec, endpoints, open) =>
      FinishReady(s, k);
      ServerResolvedShape(Finish(s, 0), ec, endpoints, open);
    case Connected(k, ec, endpoint, open) =>
      FinishReady(s, k);
      ServerConnectedShape(Finish(s, 0), ec, endpoint, open);
    case TimerDone(_) =>
  }

  /** The messages, and what is recorded of them. */
  ghost predicate SameMessages(s: State, t: State) {
    && t.messages == s.messages && t.log.marks == s.log.marks
    && t.log.requests == s.log.requests && t.log.replies == s.log.replies
    && t.log.requestHeads == s.log.requestHeads && t.log.replyHeads == s.log.replyHeads
  }

  /** What finding a server can start. */
  ghost predicate FindsServer(s: State, t: State) {
    SameMessages(s, t) && s.messages != [] &&
    (t.pending == [] || (|t.pending| == 1 && (t.pending[0].Connect? || WritesRequest(t, t.pending[0]))))
  }

  ghost predicate WritesRequest(t: State, op: Op) {
    && t.messages != []
    && op == Write(Request, |t.messages| - 1, |t.messages|, t.messages[|t.messages| - 1].request, 0)
  }

  lemma ServerResolvedKeeps(s: State, ec: ErrorCode, endpoints: seq<Endpoint>, open: bool)
    requires Ready(s, 1)
    ensures FindsServer(s, ServerResolved(s, |s.messages| - 1, ec, endpoints, open))
  {
    hide Base;
    assert s.messages != [] by {
      assert Base(s);
    }
  }

  lemma ServerConnectedKeeps(s: State, ec: ErrorCode, endpoint: Endpoint, open: bool)
    requires Ready(s, 1)
    ensures FindsServer(s, ServerConnected(s, |s.messages| - 1, ec, endpoint, open))
  {
  }

  lemma ConnectingKeeps(s: State, e: Event)
    requires Shape(s) && Enabled(s, e) && (e.Resolved? || e.Connected?)
    ensures s.pending != [] && Ready(Finish(s, 0), 1) && FindsServer(Finish(s, 0), Step(s, e))
  {
    hide ServerResolved, ServerConnected, FindsServer, Base, Fits;
    FinishReady(s, 0);
    match e
    case Resolved(_, ec, endpoints, open) => ServerResolvedKeeps(Finish(s, 0), ec, endpoints, open);
    case Connected(_, ec, endpoint, open) => ServerConnectedKeeps(Finish(s, 0), ec, endpoint, open);
  }

  lemma TimerKeeps(s: State, ec: ErrorCode)
    requires Enabled(s, TimerDone(ec))
    ensures SameMessages(s, Step(s, TimerDone(ec))) && Step(s, TimerDone(ec)).pending == s.pending
  {
    hide Fits;
  }

  lemma StepShape(s: State, e: Event)
    requires Shape(s) && Enabled(s, e)
    ensures Shape(Step(s, e))
  {
    hide HeaderArrived, CountedArrived, ChunksArrived, WriteAccepted, OpBroken;
    hide ServerResolved, ServerConnected, HandleWait;
    hide Base, Holds;
    match e
    case Arrived(k, chunk, verdict) =>
      match s.pending[k] {
        case ReadHeader(_, _, _, _) => HeaderArrivedShape(s, chunk, verdict);
        case ReadCounted(_, _, _, _, _) => CountedArrivedShape(s, chunk);
        case ReadChunks(_, _, _, _, _) => ChunksArrivedShape(s, chunk);
      }
    case Accepted(k, count) => AcceptedShape(s, k, count);
    case Broken(k, ec, verdict) => BrokenShape(s, k, ec, verdict);
    case _ => ConnectingShape(s, e);
  }

  lemma ReachableShape(s: State)
    requires Reachable(s)
    ensures Shape(s)
  {
    hide Reachable, Start, Fresh, Step, Enabled, Shape;
    FreshShape();
    forall t, e | Shape(t) && Enabled(t, e) ensures Shape(Step(t, e)) {
      StepShape(t, e);
    }
    ReachableInduction(t => Shape(t), s);
  }

  // ---- What it says ----

  /** In every reachable state at most one operation is pending besides at most one
      timer wait; it belongs to the last message; and the stages completed so
      far are read request, write request, read reply, write reply of message 0,
      then of message 1, and so on, so no reply is paired with another request. */
  lemma SingleTokenInOrder(s: State)
    requires Reachable(s)
    ensures |s.pending| <= 1 && s.timers <= 1
    ensures forall k :: 0 <= k < |s.pending| ==> s.pending[k].id == |s.messages| - 1
    ensures forall j :: 0 <= j < |s.log.marks| ==> s.log.marks[j] == Mark(j % 4, j / 4)
    ensures forall k :: 0 <= k < |s.pending| ==>
              |s.log.marks| == 4 * s.pending[k].id + StageOf(s.pending[k])
  {
    hide Reachable, Fits;
    ReachableShape(s);
  }

  /** `messages` changes only where nobody else looks: it never shrinks, all but
      the last entry stay as they are, the last one only gets longer, and when it
      grows no operation that was pending survives. */
  ghost predicate Stable(s: State, t: State) {
    && |s.messages| <= |t.messages| <= |s.messages| + 1
    && (forall i :: 0 <= i < |s.messages| - 1 ==> t.messages[i] == s.messages[i])
    && (s.messages != [] ==>
          var i := |s.messages| - 1;
          && s.messages[i].request <= t.messages[i].request
          && s.messages[i].reply <= t.messages[i].reply)
    && (|t.messages| > |s.messages| ==>
          t.messages[..|s.messages|] == s.messages &&
          t.pending == [ReadHeader(Request, |s.messages|, |t.messages|, 0)])
  }

  lemma ReadBodyMessages(s: State, dir: Dir, id: nat, epoch: nat, header: string)
    requires id < |s.messages|
    ensures ReadBody(s, dir, id, epoch, header).messages == s.messages
  {
    hide IdentifyBody, Declared, Find;
  }

  lemma HeaderReadMessages(s: State, dir: Dir, id: nat, epoch: nat, ec: ErrorCode, headerLen: nat, verdict: Verdict)
    requires id < |s.messages| && headerLen <= |s.Text(dir, id)|
    ensures HeaderRead(s, dir, id, epoch, ec, headerLen, verdict).messages == s.messages
  {
    hide ReadBody, ParseField;
    var text := s.Text(dir, id);
    var parsed := ParseField(text, "host");
    if dir.Request? && parsed.Value? {
      ReadBodyMessages(SetHost(s, parsed.text), dir, id, epoch, text[..headerLen]);
    } else if dir.Reply? {
      ReadBodyMessages(s, dir, id, epoch, text[..headerLen]);
    }
  }

  /** Every step of every reachable session leaves finished exchanges alone, and every
      reference a pending handler holds into `messages` was captured at its
      present size, so no reference has been invalidated by growth. */
  lemma ReferencesStayValid(s: State, e: Event)
    requires Reachable(s) && Enabled(s, e)
    ensures Stable(s, Step(s, e))
    ensures forall k :: 0 <= k < |Step(s, e).pending| ==> Fixed(Step(s, e), Step(s, e).pending[k])
  {
    hide Reachable, Enabled, Step, Shape, Stable, Fixed;
    ReachableShape(s);
    StepShape(s, e);
    StepStable(s, e);
    PendingFixed(Step(s, e));
  }

  lemma PendingFixed(s: State)
    requires Shape(s)
    ensures forall k :: 0 <= k < |s.pending| ==> Fixed(s, s.pending[k])
  {
  }

  lemma HeaderReceivedStable(s: State, chunk: string)
    requires Shape(s) && s.pending != [] && s.pending[0].ReadHeader?
    ensures Stable(s, HeaderReceived(s, 0, chunk))
    ensures HeaderFinished(s, 0, chunk).messages == HeaderReceived(s, 0, chunk).messages
  {
  }

  lemma HeaderArrivedStable(s: State, chunk: string, verdict: Verdict)
    requires Shape(s) && s.pending != [] && s.pending[0].ReadHeader?
    ensures Stable(s, HeaderArrived(s, 0, chunk, verdict))
  {
    hide PartialSearch, HeaderRead, HeaderReceived, HeaderFinished, Base;
    HeaderReceivedStable(s, chunk);
    var op, t := s.pending[0], HeaderReceived(s, 0, chunk);
    var scan := PartialSearch(t.Text(op.dir, op.id), HEADER_END, op.pos);
    if scan.full {
      var headerLen := scan.pos + |HEADER_END|;
      HeaderReadMessages(HeaderFinished(s, 0, chunk), op.dir, op.id, op.epoch, Success, headerLen, verdict);
    }
  }

  lemma BodyReadStable(s: State, dir: Dir, body: string, ec: ErrorCode)
    requires s.messages != []
    ensures Stable(s, BodyRead(s, dir, |s.messages| - 1, body, ec))
  {
  }

  lemma BrokenStable(s: State, ec: ErrorCode, verdict: Verdict)
    requires Shape(s) && Enabled(s, Broken(0, ec, verdict))
    ensures Stable(s, Step(s, Broken(0, ec, verdict)))
  {
    hide HeaderRead, BodyRead;
    var t := Finish(s, 0);
    match s.pending[0]
    case ReadHeader(dir, id, epoch, _) => HeaderReadMessages(t, dir, id, epoch, ec, 0, verdict);
    case ReadCounted(dir, _, _, body, _) => BodyReadStable(t, dir, body, ec);
    case ReadChunks(dir, _, _, body, _) => BodyReadStable(t, dir, body, ec);
    case Write(_, _, _, _, _) =>
  }

  lemma CountedArrivedStable(s: State, chunk: string)
    requires Shape(s) && s.pending != [] && s.pending[0].ReadCounted?
    ensures Stable(s, CountedArrived(s, 0, chunk))
  {
    hide BodyRead;
    var op := s.pending[0];
    BodyReadStable(Finish(Receive(s, op.dir, chunk), 0), op.dir, op.body + chunk, Success);
  }

  lemma ChunksArrivedStable(s: State, chunk: string)
    requires Shape(s) && s.pending != [] && s.pending[0].ReadChunks?
    ensures Stable(s, ChunksArrived(s, 0, chunk))
  {
    hide BodyRead, PartialSearch;
    var op := s.pending[0];
    BodyReadStable(Finish(Receive(s, op.dir, chunk), 0), op.dir, op.body + chunk, Success);
  }

  lemma SameStable(s: State, t: State)
    requires SameMessages(s, t)
    ensures Stable(s, t)
  {
  }

  lemma OtherStable(s: State, e: Event)
    requires Shape(s) && Enabled(s, e) && !e.Arrived? && !e.Broken? && !e.Accepted?
    ensures Stable(s, Step(s, e))
  {
    hide Step, Enabled, Shape, Stable, Ready;
    if e.TimerDone? {
      TimerKeeps(s, e.ec);
    } else {
      ConnectingKeeps(s, e);
    }
    SameStable(s, Step(s, e));
  }

  lemma MessageWrittenStable(s: State, dir: Dir, id: nat, ec: ErrorCode)
    requires s.pending == []
    ensures Stable(s, MessageWritten(s, dir, id, ec))
  {
  }

  lemma AcceptedStable(s: State, count: nat)
    requires Shape(s) && Enabled(s, Accepted(0, count))
    ensures Stable(s, Step(s, Accepted(0, count)))
  {
    hide Fits, Base, MessageWritten;
    var op := s.pending[0];
    var t := Deliver(s, op.dir, op.data[op.sent..op.sent + count]);
    MessageWrittenStable(Finish(t, 0), op.dir, op.id, Success);
  }

  lemma StepStable(s: State, e: Event)
    requires Shape(s) && Enabled(s, e)
    ensures Stable(s, Step(s, e))
  {
    hide HeaderArrived, CountedArrived, ChunksArrived, WriteAccepted, OpBroken;
    hide ServerResolved, ServerConnected, HandleWait;
    hide Base, Holds, Stable;
    match e
    case Arrived(k, chunk, verdict) =>
      match s.pending[k] {
        case ReadHeader(_, _, _, _) => HeaderArrivedStable(s, chunk, verdict);
        case ReadCounted(_, _, _, _, _) => CountedArrivedStable(s, chunk);
        case ReadChunks(_, _, _, _, _) => ChunksArrivedStable(s, chunk);
      }
    case Broken(k, ec, verdict) => BrokenStable(s, ec, verdict);
    case Accepted(_, count) => AcceptedStable(s, count);
    case _ => OtherStable(s, e);
  }
}
