/** What every step of a session leads to: which operation follows, and what ends it. */
module RelayProgress {
  import opened Search
  import opened Http
  import opened Relay
  import opened RelayShape
  import opened RelayFraming
  import opened RelayDrain

  // ---- What is expected of a step ----

  /** The header announces a length that cannot be read. */
  ghost predicate Unreadable(message: string) {
    && HeaderEnd(message).Some? && HeaderEnd(message).value <= |message|
    && var header := message[..HeaderEnd(message).value];
       && Find(Lower(header), "content-length", 0).Some?
       && match ParseField(header, "content-length")
          case Value(v) => Stoul(v).None?
          case _ => true
  }

  /** A complete header from which an exception arises. */
  ghost predicate HeaderThrows(dir: Dir, message: string, verdict: Verdict) {
    || verdict == Throws
    || (dir.Request? && verdict == Proceed && !ParseField(message, "host").Value?)
    || (!(dir.Request? && verdict == TooNew) && Unreadable(message))
  }

  /** The message an arrival adds to. */
  ghost function Seen(s: State, chunk: string): string
    requires s.pending != [] && s.pending[0].ReadHeader? && Fits(s, s.pending[0])
  {
    s.Text(s.pending[0].dir, s.pending[0].id) + chunk
  }

  /** What ends the chain of handlers: a stopped session (but not between the two reads
      of a message, and not before a body has been read), an error, a request that is too
      new, and a header that throws. */
  ghost predicate EndCause(s: State, e: Event)
    requires s.pending != [] && Fits(s, s.pending[0])
  {
    var op := s.pending[0];
    match e
    case Arrived(_, chunk, verdict) =>
      && op.ReadHeader? && Find(Seen(s, chunk), HEADER_END, 0).Some?
      && (s.stopped || HeaderThrows(op.dir, Seen(s, chunk), verdict) || (op.dir.Request? && verdict == TooNew))
    case Accepted(_, count) => s.stopped && op.Write? && op.sent + count == |op.data|
    case Broken(_, _, _) => true
    case Resolved(_, ec, _, _) => s.stopped || ec != Success
    case Connected(_, ec, _, _) => s.stopped || ec != Success
    case TimerDone(_) => false
  }

  /** What lets an exception out of a handler: a header that throws, a failed write, and
      a read error the handlers do not know. Only a failed body read does so in a stopped
      session. */
  ghost predicate ThrowCause(s: State, e: Event)
    requires e.TimerDone? || (s.pending != [] && Fits(s, s.pending[0]))
  {
    match e
    case Arrived(_, chunk, verdict) =>
      && s.pending[0].ReadHeader? && Find(Seen(s, chunk), HEADER_END, 0).Some?
      && !s.stopped && HeaderThrows(s.pending[0].dir, Seen(s, chunk), verdict)
    case Broken(_, ec, _) => (
      match s.pending[0]
      case ReadHeader(dir, _, _, _) => !s.stopped && (ec == Unknown || (ec == Reset && dir.Request?))
      case Write(_, _, _, _, _) => !s.stopped
      case _ => ec == Unknown || ec == Reset
      )
    case _ => false
  }

  /** What follows a message that has been read: a reply is written to the client; a
      request is written to the server over the connection there is, if it leads to the
      right host, and else the host is resolved. */
  ghost function AfterRead(s: State, dir: Dir): Op
    requires s.messages != []
  {
    var n := |s.messages|;
    if dir.Reply? then Write(Reply, n - 1, n, s.messages[n - 1].reply, 0)
    else if s.serverOpen && s.prevHost == s.currHost then Write(Request, n - 1, n, s.messages[n - 1].request, 0)
    else Resolve(n - 1, s.currHost)
  }

  /** What a step that neither ends the chain nor is about the timer leaves pending. */
  ghost predicate Follows(s: State, e: Event, t: State)
    requires s.pending != [] && Fits(s, s.pending[0]) && !e.TimerDone? && !EndCause(s, e)
  {
    var n, op := |s.messages|, s.pending[0];
    t.messages != [] && |t.pending| == 1 && var next := t.pending[0];
    match e
    case Arrived(_, chunk, _) => (
      match op
      case ReadHeader(dir, id, epoch, _) => HeaderFollows(t, dir, id, epoch, Seen(s, chunk))
      case ReadCounted(dir, id, epoch, body, limit) =>
        next == if |body + chunk| < limit then ReadCounted(dir, id, epoch, body + chunk, limit) else AfterRead(t, dir)
      case ReadChunks(dir, id, epoch, body, _) =>
        if Find(body + chunk, LAST_CHUNK, 0).Some? then next == AfterRead(t, dir)
        else next.ReadChunks? && next == ReadChunks(dir, id, epoch, body + chunk, next.pos) &&
             Searched(body + chunk, LAST_CHUNK, next.pos)
      case _ => true
      )
    case Accepted(_, count) =>
      op.Write? ==>
        if op.sent + count < |op.data| then t.messages == s.messages && next == op.(sent := op.sent + count)
        else if op.dir.Request? then t.messages == s.messages && next == ReadHeader(Reply, n - 1, n, 0)
        else t.messages == s.messages + [Exchange("", "")] && next == ReadHeader(Request, n, n + 1, 0)
    case Resolved(_, _, endpoints, _) => t.messages == s.messages && next == Connect(n - 1, endpoints)
    case Connected(_, _, _, _) =>
      t.messages == s.messages && n > 0 && next == Write(Request, n - 1, n, s.messages[n - 1].request, 0)
    case _ => false
  }

  ghost predicate HeaderFollows(t: State, dir: Dir, id: nat, epoch: nat, message: string)
    requires |t.pending| == 1 && t.messages != []
  {
    var next := t.pending[0];
    match HeaderEnd(message)
    case None =>
      next.ReadHeader? && next == ReadHeader(dir, id, epoch, next.pos) && Searched(message, HEADER_END, next.pos)
    case Some(h) =>
      && (dir.Request? ==> ParseField(message, "host") == Value(t.currHost))
      && BodyFollows(t, dir, id, epoch, message, h)
  }

  ghost predicate BodyFollows(t: State, dir: Dir, id: nat, epoch: nat, message: string, h: nat)
    requires |t.pending| == 1 && t.messages != []
  {
    var next := t.pending[0];
    h <= |message| &&
    match IdentifyBody(message[..h])
    case NoBody => next == AfterRead(t, dir)
    case ContentLength =>
      Declared(message[..h]).Some? &&
      next == ReadCounted(dir, id, epoch, "", Remaining(Declared(message[..h]).value, |message|, h))
    case ChunkedCoding =>
      next == if Find(message, LAST_CHUNK, h).Some? then AfterRead(t, dir) else ReadChunks(dir, id, epoch, "", 0)
  }

  /** The server socket: given up when connecting to some endpoint starts, and a new
      connection when that has succeeded. */
  ghost predicate ServerSocket(s: State, e: Event, t: State) {
    match e
    case Resolved(_, ec, endpoints, open) =>
      if !s.stopped && ec == Success && endpoints != [] then !t.peer.Some? && t.serverOpen == open
      else t.peer == s.peer && t.serverOpen == s.serverOpen
    case Connected(_, ec, endpoint, open) =>
      if ec == Success
      then t.serverOpen && t.peer == Some(Connection(endpoint.host, endpoint.address, s.dials))
      else t.serverOpen == open && t.peer == s.peer
    case _ => t.peer == s.peer && t.serverOpen == s.serverOpen
  }

  /** The last byte of a reply has been written, in a session that runs. */
  ghost predicate ExchangeEnds(s: State, e: Event) {
    && e.Accepted? && !s.stopped && s.pending != [] && s.pending[0].Write? && s.pending[0].dir.Reply?
    && s.pending[0].sent + e.count == |s.pending[0].data|
  }

  /** The bytes an event brings in one direction, and those it takes. */
  ghost function BytesIn(s: State, e: Event, dir: Dir): string {
    if e.Arrived? && s.pending != [] && !s.pending[0].Resolve? && !s.pending[0].Connect? && s.pending[0].dir == dir
    then e.chunk else ""
  }

  ghost function BytesOut(s: State, e: Event, dir: Dir): string {
    if e.Accepted? && s.pending != [] && s.pending[0].Write? && s.pending[0].dir == dir &&
       s.pending[0].sent + e.count <= |s.pending[0].data|
    then s.pending[0].data[s.pending[0].sent..s.pending[0].sent + e.count] else ""
  }

  /** Operations that were started and not completed. */
  function Open(s: State): int {
    s.log.started - s.log.completed
  }

  /** Which operation a step leaves pending, and whether an exception left it. */
  ghost predicate GoesOn(s: State, e: Event, t: State) {
    && (e.TimerDone? ==> t.pending == s.pending && t.messages == s.messages && !t.failed)
    && (!e.TimerDone? ==>
          && s.pending != [] && Fits(s, s.pending[0])
          && (t.pending == [] <==> EndCause(s, e))
          && (t.pending != [] ==> Follows(s, e, t))
          && (t.failed <==> ThrowCause(s, e)))
  }

  /** What a step does to the connection, to the bytes read and written, and to the number
      of operations. */
  ghost predicate Accounts(s: State, e: Event, t: State) {
    && ServerSocket(s, e, t)
    && t.prevHost == (if ExchangeEnds(s, e) then s.currHost else s.prevHost)
    && (forall dir :: t.log.FlowOf(dir).read == s.log.FlowOf(dir).read + BytesIn(s, e, dir))
    && (forall dir :: t.log.FlowOf(dir).written == s.log.FlowOf(dir).written + BytesOut(s, e, dir))
    && Open(t) - |t.pending| - t.timers == Open(s) - |s.pending| - s.timers
  }

  // ---- The handlers ----

  /** What a handler of the session leaves alone. */
  ghost predicate Same(s: State, t: State) {
    && t.serverOpen == s.serverOpen && t.peer == s.peer && t.dials == s.dials && t.timers == s.timers
    && t.log.requests == s.log.requests && t.log.replies == s.log.replies && t.log.completed == s.log.completed
  }

  ghost predicate Begun(s: State, t: State, op: Op) {
    Same(s, t) && t.pending == [op] && t.failed == s.failed && t.log.started == s.log.started + 1
  }

  ghost predicate Ended(s: State, t: State, failed: bool) {
    Same(s, t) && t.pending == [] && t.failed == failed && t.log.started == s.log.started
  }

  lemma AfterReadSame(s: State, t: State, dir: Dir)
    requires s.messages != [] && t.messages == s.messages
    requires t.serverOpen == s.serverOpen && t.prevHost == s.prevHost && t.currHost == s.currHost
    ensures AfterRead(t, dir) == AfterRead(s, dir)
  {
  }

  lemma ResolveServerFollows(s: State)
    requires s.pending == [] && s.messages != []
    ensures Starting(s, ResolveServer(s, |s.messages| - 1), AfterRead(s, Request))
  {
  }

  lemma SendToClientFollows(s: State)
    requires s.pending == [] && s.messages != []
    ensures Starting(s, SendMessageToClient(s, |s.messages| - 1), AfterRead(s, Reply))
  {
  }

  /** An operation begins, and neither messages nor hosts change. */
  ghost predicate Starting(s: State, t: State, op: Op) {
    Begun(s, t, op) && t.messages == s.messages && t.prevHost == s.prevHost && t.currHost == s.currHost
  }

  lemma MarkedStarts(s: State, u: State, t: State, op: Op)
    requires Starting(u, t, op) && Same(s, u) && u.messages == s.messages && u.log.started == s.log.started
    requires u.failed == s.failed && u.prevHost == s.prevHost && u.currHost == s.currHost
    ensures Starting(s, t, op)
  {
  }

  lemma MessageReadFollows(s: State, dir: Dir)
    requires s.pending == [] && s.messages != []
    ensures var t := MessageRead(s, dir, |s.messages| - 1); Starting(s, t, AfterRead(t, dir))
  {
    var t, u := MessageRead(s, dir, |s.messages| - 1), Done(s, ReadStage(dir), |s.messages| - 1);
    hide AfterRead, Starting, ResolveServer, SendMessageToClient;
    if dir.Request? {
      ResolveServerFollows(u);
      MarkedStarts(s, u, t, AfterRead(u, dir));
      StartedSame(u, t, dir);
    } else {
      SendToClientFollows(Answered(u));
      MarkedStarts(s, Answered(u), t, AfterRead(Answered(u), dir));
      StartedSame(Answered(u), t, dir);
    }
  }

  lemma StartedSame(u: State, t: State, dir: Dir)
    requires u.messages != [] && Starting(u, t, AfterRead(u, dir))
    ensures t.messages != [] && AfterRead(t, dir) == AfterRead(u, dir)
  {
    AfterReadSame(u, t, dir);
  }

  lemma ReadBodyFollows(s: State, dir: Dir, epoch: nat, h: nat)
    requires s.pending == [] && s.messages != [] && !s.stopped && h <= |s.Text(dir, |s.messages| - 1)|
    ensures var n, message := |s.messages| - 1, s.Text(dir, |s.messages| - 1);
            var t := ReadBody(s, dir, n, epoch, message[..h]);
            && t.messages == s.messages && t.prevHost == s.prevHost && t.currHost == s.currHost
            && if IdentifyBody(message[..h]) == ContentLength && Declared(message[..h]).None? then Ended(s, t, true)
               else |t.pending| == 1 && Begun(s, t, t.pending[0]) && BodyFollows(t, dir, n, epoch, message, h)
  {
    hide MessageRead, IdentifyBody, Declared, Find, Remaining;
    MessageReadFollows(s, dir);
  }

  lemma UnreadableIs(message: string, h: nat)
    requires HeaderEnd(message) == Some(h) && h <= |message|
    ensures Unreadable(message) <==> IdentifyBody(message[..h]) == ContentLength && Declared(message[..h]).None?
  {
    IdentifyBodyExactly(message[..h]);
    hide IdentifyBody, HeaderEnd, Find, Lower, ParseField, Stoul;
  }

  /** What the handler of a complete header does. */
  ghost predicate HeaderOutcome(s: State, t: State, dir: Dir, epoch: nat, verdict: Verdict)
    requires s.messages != []
  {
    var n, message := |s.messages| - 1, s.Text(dir, |s.messages| - 1);
    && t.messages == s.messages && t.prevHost == s.prevHost
    && if s.stopped || HeaderThrows(dir, message, verdict) || (dir.Request? && verdict == TooNew)
       then Ended(s, t, !s.stopped && HeaderThrows(dir, message, verdict))
       else |t.pending| == 1 && Begun(s, t, t.pending[0]) && HeaderFollows(t, dir, n, epoch, message)
  }

  lemma HeaderReadFollows(s: State, dir: Dir, epoch: nat, h: nat, verdict: Verdict)
    requires s.pending == [] && s.messages != [] && !s.failed
    requires HeaderEnd(s.Text(dir, |s.messages| - 1)) == Some(h) && h <= |s.Text(dir, |s.messages| - 1)|
    ensures HeaderOutcome(s, HeaderRead(s, dir, |s.messages| - 1, epoch, Success, h, verdict), dir, epoch, verdict)
  {
    hide ReadBody, ParseField, IdentifyBody, Declared, HeaderEnd, BodyFollows, Remaining, Find, Unreadable;
    var message := s.Text(dir, |s.messages| - 1);
    UnreadableIs(message, h);
    if !s.stopped {
      if dir.Request? {
        var parsed := ParseField(message, "host");
        if parsed.Value? {
          ReadBodyFollows(SetHost(s, parsed.text), dir, epoch, h);
        }
      } else {
        ReadBodyFollows(s, dir, epoch, h);
      }
    }
  }

  lemma BodyReadFollows(s: State, dir: Dir, body: string, ec: ErrorCode)
    requires s.pending == [] && s.messages != [] && !s.failed
    ensures var t := BodyRead(s, dir, |s.messages| - 1, body, ec);
            && t.prevHost == s.prevHost && t.messages != []
            && if ec == Success then Begun(s, t, AfterRead(t, dir))
               else Ended(s, t, ec == Unknown || ec == Reset)
  {
    hide MessageRead, AfterRead;
    MessageReadFollows(Append(s, dir, |s.messages| - 1, body), dir);
  }

  lemma HeaderBroken(s: State, dir: Dir, epoch: nat, ec: ErrorCode, verdict: Verdict)
    requires s.pending == [] && s.messages != [] && !s.failed && ec != Success
    ensures var t := HeaderRead(s, dir, |s.messages| - 1, epoch, ec, 0, verdict);
            && Ended(s, t, !s.stopped && (ec == Unknown || (ec == Reset && dir.Request?)))
            && t.prevHost == s.prevHost
  {
    hide ReadBody, ParseField;
  }

  lemma MessageWrittenFollows(s: State, dir: Dir, ec: ErrorCode)
    requires s.pending == [] && s.messages != [] && !s.failed
    ensures var n, t := |s.messages|, MessageWritten(s, dir, |s.messages| - 1, ec);
            if s.stopped || ec != Success
            then Ended(s, t, !s.stopped && ec != Success) && t.messages == s.messages && t.prevHost == s.prevHost
            else if dir.Request?
            then Begun(s, t, ReadHeader(Reply, n - 1, n, 0)) && t.messages == s.messages && t.prevHost == s.prevHost
            else && Begun(s, t, ReadHeader(Request, n, n + 1, 0)) && t.messages == s.messages + [Exchange("", "")]
                 && t.prevHost == s.currHost
  {
  }

  // ---- The steps ----

  /** Some bytes have moved; the operation goes on (`done` false), or its handler is about to run. */
  ghost predicate Moved(s: State, e: Event, u: State, done: bool) {
    && |s.pending| == 1 && |u.pending| == (if done then 0 else 1)
    && u.serverOpen == s.serverOpen && u.peer == s.peer && u.prevHost == s.prevHost && u.timers == s.timers
    && u.log.started == s.log.started && u.log.completed == s.log.completed + (if done then 1 else 0)
    && (forall dir :: u.log.FlowOf(dir).read == s.log.FlowOf(dir).read + BytesIn(s, e, dir))
    && (forall dir :: u.log.FlowOf(dir).written == s.log.FlowOf(dir).written + BytesOut(s, e, dir))
  }

  lemma MovedAccounts(s: State, e: Event, u: State)
    requires Moved(s, e, u, false) && !e.Resolved? && !e.Connected? && !ExchangeEnds(s, e)
    ensures Accounts(s, e, u)
  {
  }

  lemma HandledAccounts(s: State, e: Event, u: State, t: State)
    requires Moved(s, e, u, true) && !e.Resolved? && !e.Connected?
    requires Same(u, t) && t.log.started == u.log.started + |t.pending|
    requires t.prevHost == if ExchangeEnds(s, e) then s.currHost else s.prevHost
    ensures Accounts(s, e, t)
  {
  }

  lemma ReceivedMoved(s: State, chunk: string, verdict: Verdict)
    requires Shape(s) && Enabled(s, Arrived(0, chunk, verdict))
    ensures var e, r := Arrived(0, chunk, verdict), Receive(s, s.pending[0].dir, chunk);
            && Moved(s, e, r, false) && Moved(s, e, Finish(r, 0), true)
            && Finish(r, 0).messages == s.messages && !Finish(r, 0).failed
            && s.messages != [] && s.pending[0].id == |s.messages| - 1
  {
    hide Base, Fits;
    var e, r := Arrived(0, chunk, verdict), Receive(s, s.pending[0].dir, chunk);
    forall dir ensures r.log.FlowOf(dir).read == s.log.FlowOf(dir).read + BytesIn(s, e, dir) {
      if dir != s.pending[0].dir {
        assert s.log.FlowOf(dir).read + "" == s.log.FlowOf(dir).read;
      }
    }
    forall dir ensures r.log.FlowOf(dir).written == s.log.FlowOf(dir).written + BytesOut(s, e, dir) {
      assert s.log.FlowOf(dir).written + "" == s.log.FlowOf(dir).written;
    }
    assert s.messages != [] by {
      ShapeHasMessages(s);
    }
  }

  lemma ShapeHasMessages(s: State)
    requires Shape(s)
    ensures s.messages != [] && |s.pending| <= 1
    ensures s.pending != [] ==> s.pending[0].id == |s.messages| - 1
  {
  }

  lemma FinishMoved(s: State, e: Event, u: State)
    requires Moved(s, e, u, false)
    ensures Moved(s, e, Finish(u, 0), true)
    ensures Finish(u, 0).messages == u.messages && Finish(u, 0).failed == u.failed && Finish(u, 0).pending == []
    ensures Finish(u, 0).stopped == u.stopped && Finish(u, 0).currHost == u.currHost
    ensures Finish(u, 0).prevHost == s.prevHost
  {
    hide BytesIn, BytesOut;
  }

  lemma HeaderMoved(s: State, chunk: string, verdict: Verdict)
    requires Shape(s) && Enabled(s, Arrived(0, chunk, verdict)) && s.pending[0].ReadHeader?
    ensures var e, t, u := Arrived(0, chunk, verdict), HeaderReceived(s, 0, chunk), HeaderFinished(s, 0, chunk);
            && Moved(s, e, t, false) && Moved(s, e, u, true) && t.pending == s.pending && u.pending == []
            && !t.failed && !u.failed && u.stopped == s.stopped
            && u.messages == t.messages && |u.messages| == |s.messages|
            && s.pending[0].id == |s.messages| - 1 && s.messages != []
            && u.Text(s.pending[0].dir, s.pending[0].id) == Seen(s, chunk)
  {
    ReceivedMoved(s, chunk, verdict);
    hide Base, BytesIn, BytesOut;
  }

  lemma HeaderArrivedGoesOn(s: State, chunk: string, verdict: Verdict)
    requires Shape(s) && FrameInv(s) && Enabled(s, Arrived(0, chunk, verdict)) && s.pending[0].ReadHeader?
    ensures var e, t := Arrived(0, chunk, verdict), HeaderArrived(s, 0, chunk, verdict);
            GoesOn(s, e, t) && Accounts(s, e, t)
  {
    hide PartialSearch, HeaderRead, HeaderReceived, HeaderFinished, Find, Searched, Frames, Base, Moved, Same, Accounts;
    hide HeaderThrows, BodyFollows, ParseField, FrameInv;
    var op, e, u := s.pending[0], Arrived(0, chunk, verdict), HeaderFinished(s, 0, chunk);
    HeaderMoved(s, chunk, verdict);
    HeaderScan(s, chunk);
    var scan := PartialSearch(Seen(s, chunk), HEADER_END, op.pos);
    if scan.full {
      HeaderReadFollows(u, op.dir, op.epoch, scan.pos + |HEADER_END|, verdict);
      ReadHandled(s, e, u, HeaderArrived(s, 0, chunk, verdict));
    } else {
      OperationWaits(s, e, HeaderReceived(s, 0, chunk), HeaderArrived(s, 0, chunk, verdict));
    }
  }

  lemma HeaderScan(s: State, chunk: string)
    requires FrameInv(s) && s.pending != [] && s.pending[0].ReadHeader? && Fits(s, s.pending[0])
    ensures var whole := Seen(s, chunk);
            var scan := PartialSearch(whole, HEADER_END, s.pending[0].pos);
            && scan.full == Find(whole, HEADER_END, 0).Some?
            && (scan.full ==> HeaderEnd(whole) == Some(scan.pos + |HEADER_END|) && scan.pos + |HEADER_END| <= |whole|)
            && (!scan.full ==> Searched(whole, HEADER_END, scan.pos) && HeaderEnd(whole).None?)
  {
    hide Frames, Find, Searched;
    var op := s.pending[0];
    ResumedScanIsFullSearch(s.Text(op.dir, op.id), chunk, HEADER_END, op.pos);
  }

  lemma ReadHandled(s: State, e: Event, u: State, t: State)
    requires e.Arrived? && Moved(s, e, u, true) && u.pending == [] && t.prevHost == u.prevHost
    requires Ended(u, t, t.failed) || (|t.pending| == 1 && Begun(u, t, t.pending[0]))
    ensures Accounts(s, e, t)
  {
    HandledAccounts(s, e, u, t) by {
      hide BytesIn, BytesOut;
    }
  }

  /** A read or write that goes on differs from the state before only in its operation. */
  lemma OperationWaits(s: State, e: Event, u: State, t: State)
    requires (e.Arrived? || e.Accepted?) && Moved(s, e, u, false) && !ExchangeEnds(s, e)
    requires |t.pending| == 1 && t == u.(pending := t.pending)
    ensures Accounts(s, e, t)
  {
    MovedAccounts(s, e, t) by {
      hide BytesIn, BytesOut;
    }
  }

  lemma CountedArrivedGoesOn(s: State, chunk: string, verdict: Verdict)
    requires Shape(s) && Enabled(s, Arrived(0, chunk, verdict)) && s.pending[0].ReadCounted?
    ensures var e, t := Arrived(0, chunk, verdict), CountedArrived(s, 0, chunk); GoesOn(s, e, t) && Accounts(s, e, t)
  {
    hide BodyRead, Base, AfterRead, Moved, Same, Accounts;
    var op, e := s.pending[0], Arrived(0, chunk, verdict);
    var r := Receive(s, op.dir, chunk);
    ReceivedMoved(s, chunk, verdict);
    if |op.body + chunk| == op.limit {
      BodyReadFollows(Finish(r, 0), op.dir, op.body + chunk, Success);
      ReadHandled(s, e, Finish(r, 0), CountedArrived(s, 0, chunk));
    } else {
      OperationWaits(s, e, r, CountedArrived(s, 0, chunk));
    }
  }

  lemma ChunksArrivedGoesOn(s: State, chunk: string, verdict: Verdict)
    requires Shape(s) && FrameInv(s) && Enabled(s, Arrived(0, chunk, verdict)) && s.pending[0].ReadChunks?
    ensures var e, t := Arrived(0, chunk, verdict), ChunksArrived(s, 0, chunk); GoesOn(s, e, t) && Accounts(s, e, t)
  {
    hide BodyRead, Base, AfterRead, PartialSearch, Find, Searched, Frames, Moved, Same, Accounts;
    var op, e := s.pending[0], Arrived(0, chunk, verdict);
    var r := Receive(s, op.dir, chunk);
    ReceivedMoved(s, chunk, verdict);
    ResumedScanIsFullSearch(op.body, chunk, LAST_CHUNK, op.pos);
    if PartialSearch(op.body + chunk, LAST_CHUNK, op.pos).full {
      BodyReadFollows(Finish(r, 0), op.dir, op.body + chunk, Success);
      ReadHandled(s, e, Finish(r, 0), ChunksArrived(s, 0, chunk));
    } else {
      OperationWaits(s, e, r, ChunksArrived(s, 0, chunk));
    }
  }

  lemma DeliverFlow(s: State, dir: Dir, chunk: string, d: Dir)
    ensures var flow := Deliver(s, dir, chunk).log.FlowOf(d);
            && flow.read == s.log.FlowOf(d).read
            && flow.written == s.log.FlowOf(d).written + if d == dir then chunk else ""
  {
  }

  ghost predicate Writing(s: State, count: nat) {
    |s.pending| == 1 && s.pending[0].Write? && s.pending[0].sent + count <= |s.pending[0].data|
  }

  /** The state in which some bytes have been accepted. */
  ghost function Delivered(s: State, count: nat): State
    requires Writing(s, count)
  {
    var op := s.pending[0];
    Deliver(s, op.dir, op.data[op.sent..op.sent + count])
  }

  lemma DeliveredMoved(s: State, count: nat)
    requires Writing(s, count)
    ensures Moved(s, Accepted(0, count), Delivered(s, count), false)
    ensures var d := Delivered(s, count);
            && d.messages == s.messages && d.pending == s.pending && d.failed == s.failed
            && d.stopped == s.stopped && d.currHost == s.currHost
  {
    var e, op := Accepted(0, count), s.pending[0];
    var chunk := op.data[op.sent..op.sent + count];
    forall dir
      ensures var flow := Delivered(s, count).log.FlowOf(dir);
              && flow.written == s.log.FlowOf(dir).written + BytesOut(s, e, dir)
              && flow.read == s.log.FlowOf(dir).read + BytesIn(s, e, dir)
    {
      DeliverFlow(s, op.dir, chunk, dir);
      assert BytesOut(s, e, dir) == if op.dir == dir then chunk else "";
    }
    hide BytesIn, BytesOut;
  }

  lemma WriteAcceptedIs(s: State, count: nat)
    requires Writing(s, count)
    ensures var op, d := s.pending[0], Delivered(s, count);
            && |d.pending| == 1
            && WriteAccepted(s, 0, count) ==
               if op.sent + count == |op.data| then MessageWritten(Finish(d, 0), op.dir, op.id, Success)
               else d.(pending := [Write(op.dir, op.id, op.epoch, op.data, op.sent + count)])
  {
    hide MessageWritten;
  }

  lemma AcceptedGoesOn(s: State, count: nat)
    requires Shape(s) && Enabled(s, Accepted(0, count))
    ensures var e, t := Accepted(0, count), WriteAccepted(s, 0, count); GoesOn(s, e, t) && Accounts(s, e, t)
  {
    ShapeHasMessages(s);
    assert Writing(s, count) && Fits(s, s.pending[0]);
    if s.pending[0].sent + count == |s.pending[0].data| {
      hide *;
      LastAccepted(s, count);
    } else {
      hide *;
      SomeAccepted(s, count);
    }
  }

  lemma LastAccepted(s: State, count: nat)
    requires Writing(s, count) && Fits(s, s.pending[0]) && !s.failed && s.pending[0].id == |s.messages| - 1
    requires s.pending[0].sent + count == |s.pending[0].data|
    ensures var e, t := Accepted(0, count), WriteAccepted(s, 0, count); GoesOn(s, e, t) && Accounts(s, e, t)
  {
    hide Delivered, WriteAccepted, MessageWritten, Finish, Moved, Same, Accounts, BytesIn, BytesOut;
    var op, e, d := s.pending[0], Accepted(0, count), Delivered(s, count);
    WriteAcceptedIs(s, count);
    DeliveredMoved(s, count);
    FinishMoved(s, e, d);
    MessageWrittenFollows(Finish(d, 0), op.dir, Success);
    HandledAccounts(s, e, Finish(d, 0), WriteAccepted(s, 0, count));
  }

  lemma SomeAccepted(s: State, count: nat)
    requires Writing(s, count) && Fits(s, s.pending[0]) && !s.failed && s.pending[0].id == |s.messages| - 1
    requires s.pending[0].sent + count < |s.pending[0].data|
    ensures var e, t := Accepted(0, count), WriteAccepted(s, 0, count); GoesOn(s, e, t) && Accounts(s, e, t)
  {
    hide Delivered, WriteAccepted, MessageWritten, Finish, Moved, Same, Accounts, BytesIn, BytesOut;
    var e, d := Accepted(0, count), Delivered(s, count);
    WriteAcceptedIs(s, count);
    DeliveredMoved(s, count);
    OperationWaits(s, e, d, WriteAccepted(s, 0, count));
  }

  lemma FinishedMoved(s: State, e: Event)
    requires Shape(s) && s.pending != [] && !e.Arrived? && !e.Accepted?
    ensures Moved(s, e, Finish(s, 0), true)
    ensures s.messages != [] && s.pending[0].id == |s.messages| - 1
    ensures Finish(s, 0).pending == [] && Finish(s, 0).messages == s.messages
  {
    hide Base, Fits;
    ShapeHasMessages(s);
    forall dir ensures s.log.FlowOf(dir).written == s.log.FlowOf(dir).written + BytesOut(s, e, dir) {
    }
    forall dir ensures s.log.FlowOf(dir).read == s.log.FlowOf(dir).read + BytesIn(s, e, dir) {
    }
  }

  lemma BrokenGoesOn(s: State, ec: ErrorCode, verdict: Verdict)
    requires Shape(s) && Enabled(s, Broken(0, ec, verdict))
    ensures var e, t := Broken(0, ec, verdict), OpBroken(s, 0, ec, verdict); GoesOn(s, e, t) && Accounts(s, e, t)
  {
    hide HeaderRead, BodyRead, MessageWritten, Base, AfterRead, Moved, Same, Accounts;
    var t, e := Finish(s, 0), Broken(0, ec, verdict);
    FinishedMoved(s, e);
    match s.pending[0] {
      case ReadHeader(dir, _, epoch, _) => HeaderBroken(t, dir, epoch, ec, verdict);
      case ReadCounted(dir, _, _, body, _) => BodyReadFollows(t, dir, body, ec);
      case ReadChunks(dir, _, _, body, _) => BodyReadFollows(t, dir, body, ec);
      case Write(dir, _, _, _, _) => MessageWrittenFollows(t, dir, ec);
    }
    HandledAccounts(s, e, t, OpBroken(s, 0, ec, verdict));
  }

  lemma ServerResolvedFollows(s: State, e: Event, id: nat)
    requires s.pending == [] && e.Resolved? && !s.failed
    ensures var t := ServerResolved(s, id, e.ec, e.endpoints, e.open);
            && t.messages == s.messages && t.prevHost == s.prevHost && !t.failed && ServerSocket(s, e, t)
            && t.timers == s.timers && t.log.requests == s.log.requests && t.log.replies == s.log.replies
            && t.log.completed == s.log.completed && t.log.started == s.log.started + |t.pending|
            && t.pending == if s.stopped || e.ec != Success then [] else [Connect(id, e.endpoints)]
  {
  }

  lemma ServerConnectedFollows(s: State, e: Event)
    requires s.pending == [] && e.Connected? && s.messages != [] && !s.failed
    ensures var n, t := |s.messages|, ServerConnected(s, |s.messages| - 1, e.ec, e.endpoint, e.open);
            && t.messages == s.messages && t.prevHost == s.prevHost && !t.failed && ServerSocket(s, e, t)
            && t.timers == s.timers && t.log.requests == s.log.requests && t.log.replies == s.log.replies
            && t.log.completed == s.log.completed && t.log.started == s.log.started + |t.pending|
            && t.pending == if s.stopped || e.ec != Success then []
                            else [Write(Request, n - 1, n, s.messages[n - 1].request, 0)]
  {
  }

  /** The outcome of a resolve or connect handler on the state in which it runs. */
  ghost predicate ServerHandled(s: State, e: Event, u: State, t: State) {
    && t.messages == u.messages && t.prevHost == u.prevHost && !t.failed && ServerSocket(u, e, t)
    && t.timers == u.timers && t.log.requests == u.log.requests && t.log.replies == u.log.replies
    && t.log.completed == u.log.completed && t.log.started == u.log.started + |t.pending|
  }

  lemma ServerAccounts(s: State, e: Event, t: State)
    requires Shape(s) && s.pending != [] && (e.Resolved? || e.Connected?)
    requires ServerHandled(s, e, Finish(s, 0), t)
    ensures Accounts(s, e, t)
  {
    FinishedMoved(s, e);
    hide Base, BytesIn, BytesOut;
  }

  lemma ConnectingGoesOn(s: State, e: Event)
    requires Shape(s) && Enabled(s, e) && (e.Resolved? || e.Connected?)
    ensures GoesOn(s, e, Step(s, e)) && Accounts(s, e, Step(s, e))
  {
    hide Base, ServerResolved, ServerConnected, Accounts, Moved;
    FinishedMoved(s, e);
    if e.Resolved? {
      ServerResolvedFollows(Finish(s, 0), e, s.pending[0].id);
    } else {
      ServerConnectedFollows(Finish(s, 0), e);
    }
    ServerAccounts(s, e, Step(s, e));
  }

  lemma TimerGoesOn(s: State, ec: ErrorCode)
    requires Enabled(s, TimerDone(ec))
    ensures var e := TimerDone(ec); GoesOn(s, e, Step(s, e)) && Accounts(s, e, Step(s, e))
  {
    hide Fits;
    forall dir ensures s.log.FlowOf(dir).written + "" == s.log.FlowOf(dir).written {
    }
    forall dir ensures s.log.FlowOf(dir).read + "" == s.log.FlowOf(dir).read {
    }
  }

  // ---- What it says ----

  /** Every step of every reachable session. The chain of handlers goes on exactly if no
      cause ends it, and then with the operation that is due; an exception arises exactly
      if a cause throws it; and the connection, the bytes read and written and the
      number of open operations are as the event says. */
  lemma EveryStepGoesOn(s: State, e: Event)
    requires Reachable(s) && Enabled(s, e)
    ensures GoesOn(s, e, Step(s, e)) && Accounts(s, e, Step(s, e))
  {
    hide HeaderArrived, CountedArrived, ChunksArrived, WriteAccepted, OpBroken;
    hide ServerResolved, ServerConnected, HandleWait;
    hide Reachable, Base, Holds, GoesOn, Accounts, FrameInv;
    ReachableFrames(s);
    match e
    case Arrived(k, chunk, verdict) =>
      match s.pending[k] {
        case ReadHeader(_, _, _, _) => HeaderArrivedGoesOn(s, chunk, verdict);
        case ReadCounted(_, _, _, _, _) => CountedArrivedGoesOn(s, chunk, verdict);
        case ReadChunks(_, _, _, _, _) => ChunksArrivedGoesOn(s, chunk, verdict);
      }
    case Accepted(_, count) => AcceptedGoesOn(s, count);
    case Broken(_, ec, verdict) => BrokenGoesOn(s, ec, verdict);
    case TimerDone(ec) => TimerGoesOn(s, ec);
    case Resolved(_, _, _, _) => ConnectingGoesOn(s, e);
    case Connected(_, _, _, _) => ConnectingGoesOn(s, e);
  }

  /** How a session starts: it waits for its timer and reads the first request. */
  lemma SessionStarts()
    ensures var s := Start(Fresh());
            && s.timers == 1 && !s.stopped && !s.failed && !s.serverOpen && s.peer.None?
            && s.messages == [Exchange("", "")] && s.pending == [ReadHeader(Request, 0, 1, 0)]
            && s.prevHost == "" && s.currHost == "" && Open(s) == 2 && s.log.completed == 0
            && (forall dir :: s.log.FlowOf(dir) == Flow("", ""))
  {
  }

  /** Every operation that was started is either pending or has run its handler. */
  lemma OperationsConserved(s: State)
    requires Reachable(s)
    ensures s.log.started == s.log.completed + |s.pending| + s.timers
  {
    hide Reachable, Start, Fresh, Step, Enabled, GoesOn, ServerSocket, BytesIn, BytesOut;
    ReachableStart();
    SessionStarts();
    forall t, e | Reachable(t) && Open(t) == |t.pending| + t.timers && Enabled(t, e)
      ensures Reachable(Step(t, e)) && Open(Step(t, e)) == |Step(t, e).pending| + Step(t, e).timers
    {
      ReachableStep(t, e);
      EveryStepGoesOn(t, e);
    }
    ReachableInduction(t => Reachable(t) && Open(t) == |t.pending| + t.timers, s);
  }

  // ---- Over runs ----

  /** All bytes that arrived in one direction. */
  ghost function AllBytesIn(s: State, events: seq<Event>, dir: Dir): string
    requires ValidRun(s, events)
    decreases |events|
  {
    if events == [] then "" else BytesIn(s, events[0], dir) + AllBytesIn(Step(s, events[0]), events[1..], dir)
  }

  /** All bytes the peer of one direction accepted. */
  ghost function AllBytesOut(s: State, events: seq<Event>, dir: Dir): string
    requires ValidRun(s, events)
    decreases |events|
  {
    if events == [] then "" else BytesOut(s, events[0], dir) + AllBytesOut(Step(s, events[0]), events[1..], dir)
  }

  /** The bytes of the histories are those of the events: what conservation relates is what
      the peers sent and were sent. */
  lemma {:induction false} HistoryIsTheEvents(s: State, events: seq<Event>, dir: Dir)
    requires Reachable(s) && ValidRun(s, events)
    ensures Run(s, events).log.FlowOf(dir).read == s.log.FlowOf(dir).read + AllBytesIn(s, events, dir)
    ensures Run(s, events).log.FlowOf(dir).written == s.log.FlowOf(dir).written + AllBytesOut(s, events, dir)
    decreases |events|
  {
    var flow := s.log.FlowOf(dir);
    if events == [] {
      assert flow.read + "" == flow.read && flow.written + "" == flow.written;
    } else {
      hide Reachable, Step, Enabled, GoesOn, ServerSocket, BytesIn, BytesOut, ExchangeEnds, Open;
      var e := events[0];
      ReachableStep(s, e);
      EveryStepGoesOn(s, e);
      HistoryIsTheEvents(Step(s, e), events[1..], dir);
      Associative(flow.read, BytesIn(s, e, dir), AllBytesIn(Step(s, e), events[1..], dir));
      Associative(flow.written, BytesOut(s, e, dir), AllBytesOut(Step(s, e), events[1..], dir));
    }
  }

  /** A timer wait that failed with something else than a cancellation. */
  predicate TimerFails(e: Event) {
    e.TimerDone? && e.ec != Success && e.ec != Aborted
  }

  /** No timer wait fails in this run. */
  predicate Quiet(events: seq<Event>) {
    forall i :: 0 <= i < |events| ==> !TimerFails(events[i])
  }

  lemma QuietFirst(events: seq<Event>)
    requires events != []
    ensures Quiet(events) <==> !TimerFails(events[0]) && Quiet(events[1..])
  {
    hide TimerFails;
    if !TimerFails(events[0]) && Quiet(events[1..]) {
      forall i | 0 <= i < |events| ensures !TimerFails(events[i]) {
        if i > 0 {
          assert events[i] == events[1..][i - 1];
        }
      }
    }
  }

  /** A session is watched from its start until it stops: as long as it has not stopped,
      one timer wait is pending, exactly if no wait has failed. */
  lemma WatchedExactly(events: seq<Event>)
    requires ValidRun(Start(Fresh()), events) && !Run(Start(Fresh()), events).stopped
    ensures Run(Start(Fresh()), events).timers == 1 <==> Quiet(events)
  {
    hide *;
    ReachableStart();
    SessionStarts();
    WatchedFrom(Start(Fresh()), events);
  }

  lemma {:induction false} WatchedFrom(s: State, events: seq<Event>)
    requires Reachable(s) && ValidRun(s, events)
    ensures s.stopped ==> Run(s, events).stopped
    ensures !Run(s, events).stopped ==> (Run(s, events).timers == 1 <==> s.timers == 1 && Quiet(events))
    decreases |events|
  {
    if events != [] {
      hide Reachable, Step, Enabled, Shape, TimerFails, Quiet;
      ReachableShape(s);
      ReachableStep(s, events[0]);
      WatchedStep(s, events[0]);
      WatchedFrom(Step(s, events[0]), events[1..]);
      QuietFirst(events);
    }
  }

  lemma WatchedStep(s: State, e: Event)
    requires Shape(s) && Enabled(s, e)
    ensures s.stopped ==> Step(s, e).stopped
    ensures !Step(s, e).stopped ==> (Step(s, e).timers == 1 <==> s.timers == 1 && !TimerFails(e))
  {
    StepStops(s, e);
    hide Step, Fits;
  }
}
