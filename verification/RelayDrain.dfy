/** What is left to happen once a session has stopped. */
module RelayDrain {
  import opened Search
  import opened Http
  import opened Relay
  import opened RelayShape

  predicate ReadsBody(op: Op) {
    op.ReadCounted? || op.ReadChunks?
  }

  /** A pending body read counts twice, because its handler does not look at `stopped`. */
  function OpsRank(ops: seq<Op>): nat {
    if ops == [] then 0 else (if ReadsBody(ops[0]) then 2 else 1) + OpsRank(ops[1..])
  }

  /** Each pending handler holds the session alive, so it is released when this is zero. */
  function Rank(s: State): nat {
    OpsRank(s.pending) + s.timers
  }

  /** The operations that may still be started. */
  function Credit(s: State): nat {
    if s.pending != [] && ReadsBody(s.pending[0]) then 1 else 0
  }

  ghost predicate Drains(s: State, t: State) {
    && t.stopped
    && s.log.completed <= t.log.completed <= s.log.completed + 1
    && (t.log.completed == s.log.completed ==> Rank(t) == Rank(s))
    && (t.log.completed > s.log.completed ==> Rank(t) < Rank(s))
    && t.log.started + Credit(t) <= s.log.started + Credit(s)
    && t.timers <= s.timers
  }

  lemma RankOfOne(s: State)
    requires |s.pending| <= 1
    ensures OpsRank(s.pending) == if s.pending == [] then 0 else if ReadsBody(s.pending[0]) then 2 else 1
  {
    if s.pending != [] {
      assert s.pending[1..] == [];
    }
  }

  /** The only handler that starts something after a stop. */
  lemma MessageReadDrains(s: State, dir: Dir, id: nat)
    requires s.stopped && s.pending == [] && id < |s.messages|
    ensures var t := MessageRead(s, dir, id);
            && t.stopped && t.timers == s.timers && Rank(t) == s.timers + 1 && Credit(t) == 0
            && t.log.started == s.log.started + 1 && t.log.completed == s.log.completed
  {
    RankOfOne(MessageRead(s, dir, id));
  }

  lemma BodyReadDrains(s: State, dir: Dir, id: nat, body: string, ec: ErrorCode)
    requires s.stopped && s.pending == [] && id < |s.messages|
    ensures var t := BodyRead(s, dir, id, body, ec);
            && t.stopped && t.timers == s.timers && Rank(t) <= s.timers + 1 && Credit(t) == 0
            && t.log.started <= s.log.started + 1 && t.log.completed == s.log.completed
  {
    hide MessageRead;
    MessageReadDrains(Append(s, dir, id, body), dir, id);
  }

  /** A handler that looks at `stopped` first. */
  lemma NothingStartedDrains(s: State, t: State)
    requires s.stopped && t.stopped && |s.pending| == 1 && t.pending == [] && t.timers == s.timers
    requires t.log.completed == s.log.completed + 1 && t.log.started == s.log.started
    ensures Drains(s, t)
  {
    RankOfOne(s);
    RankOfOne(t);
  }

  /** An operation that goes on. */
  lemma ProgressDrains(s: State, t: State)
    requires s.stopped && t.stopped && |s.pending| == |t.pending| == 1 && t.timers == s.timers
    requires ReadsBody(t.pending[0]) == ReadsBody(s.pending[0])
    requires t.log.completed == s.log.completed && t.log.started == s.log.started
    ensures Drains(s, t)
  {
    RankOfOne(s);
    RankOfOne(t);
  }

  /** The end of a body read. */
  lemma BodyEndsDrains(s: State, u: State, dir: Dir, id: nat, body: string, ec: ErrorCode)
    requires s.stopped && |s.pending| == 1 && ReadsBody(s.pending[0]) && id < |u.messages|
    requires u.stopped && u.pending == [] && u.timers == s.timers
    requires u.log.completed == s.log.completed + 1 && u.log.started == s.log.started
    ensures Drains(s, BodyRead(u, dir, id, body, ec))
  {
    hide BodyRead;
    RankOfOne(s);
    BodyReadDrains(u, dir, id, body, ec);
  }

  lemma HeaderArrivedDrains(s: State, chunk: string, verdict: Verdict)
    requires Shape(s) && s.stopped && s.pending != [] && s.pending[0].ReadHeader?
    ensures Drains(s, HeaderArrived(s, 0, chunk, verdict))
  {
    hide PartialSearch, HeaderRead, HeaderFinished, Base, Drains;
    HeaderReceivedKeeps(s, chunk);
    var op, u := s.pending[0], HeaderFinished(s, 0, chunk);
    var scan := PartialSearch(u.Text(op.dir, op.id), HEADER_END, op.pos);
    if scan.full {
      StoppedHeaderRead(u, op.dir, op.id, op.epoch, Success, scan.pos + |HEADER_END|, verdict);
      NothingStartedDrains(s, u);
    } else {
      ProgressDrains(s, HeaderArrived(s, 0, chunk, verdict));
    }
  }

  lemma StoppedHeaderRead(s: State, dir: Dir, id: nat, epoch: nat, ec: ErrorCode, headerLen: nat, verdict: Verdict)
    requires s.stopped && id < |s.messages| && headerLen <= |s.Text(dir, id)|
    ensures HeaderRead(s, dir, id, epoch, ec, headerLen, verdict) == s
  {
    hide ReadBody, ParseField;
  }

  lemma BodyArrivedDrains(s: State, chunk: string)
    requires Shape(s) && s.stopped && s.pending != []
    ensures s.pending[0].ReadCounted? ==> Drains(s, CountedArrived(s, 0, chunk))
    ensures s.pending[0].ReadChunks? ==> Drains(s, ChunksArrived(s, 0, chunk))
  {
    hide PartialSearch, Base, Drains, BodyRead;
    var op := s.pending[0];
    if op.ReadCounted? {
      if |op.body + chunk| == op.limit {
        BodyEndsDrains(s, Finish(Receive(s, op.dir, chunk), 0), op.dir, op.id, op.body + chunk, Success);
      } else {
        ProgressDrains(s, CountedArrived(s, 0, chunk));
      }
    } else if op.ReadChunks? {
      if PartialSearch(op.body + chunk, LAST_CHUNK, op.pos).full {
        BodyEndsDrains(s, Finish(Receive(s, op.dir, chunk), 0), op.dir, op.id, op.body + chunk, Success);
      } else {
        ProgressDrains(s, ChunksArrived(s, 0, chunk));
      }
    }
  }

  lemma BrokenDrains(s: State, ec: ErrorCode, verdict: Verdict)
    requires Shape(s) && s.stopped && Enabled(s, Broken(0, ec, verdict))
    ensures Drains(s, Step(s, Broken(0, ec, verdict)))
  {
    hide BodyRead, HeaderRead, Base, Drains;
    var op, t := s.pending[0], Finish(s, 0);
    if ReadsBody(op) {
      BodyEndsDrains(s, t, op.dir, op.id, op.body, ec);
    } else {
      if op.ReadHeader? {
        StoppedHeaderRead(t, op.dir, op.id, op.epoch, ec, 0, verdict);
      }
      NothingStartedDrains(s, t);
    }
  }

  lemma AcceptedDrains(s: State, count: nat)
    requires Shape(s) && s.stopped && Enabled(s, Accepted(0, count))
    ensures Drains(s, Step(s, Accepted(0, count)))
  {
    hide Base, Drains, Fits;
    var t := Step(s, Accepted(0, count));
    if t.pending == [] {
      NothingStartedDrains(s, t);
    } else {
      ProgressDrains(s, t);
    }
  }

  lemma OtherDrains(s: State, e: Event)
    requires Shape(s) && s.stopped && Enabled(s, e)
    requires e.Resolved? || e.Connected? || e.TimerDone?
    ensures Drains(s, Step(s, e))
  {
    hide Base, Fits, SendMessageToServer, ConnectToEndpoints;
    if !e.TimerDone? {
      hide Drains;
      NothingStartedDrains(s, Step(s, e));
    }
  }

  lemma StepDrains(s: State, e: Event)
    requires Shape(s) && s.stopped && Enabled(s, e)
    ensures Drains(s, Step(s, e))
  {
    hide OpBroken, HeaderArrived, CountedArrived, ChunksArrived, WriteAccepted;
    hide Base, Fits, ServerResolved, ServerConnected, HandleWait, Drains;
    match e
    case Arrived(_, chunk, verdict) =>
      if s.pending[0].ReadHeader? {
        HeaderArrivedDrains(s, chunk, verdict);
      } else {
        BodyArrivedDrains(s, chunk);
      }
    case Broken(_, ec, verdict) => BrokenDrains(s, ec, verdict);
    case Accepted(_, count) => AcceptedDrains(s, count);
    case _ => OtherDrains(s, e);
  }

  /** Over every run that begins in a stopped state: it stays stopped; at most three
      handlers run, each of them lowering the rank; at most one operation is
      started, and only if a body read was pending; no timer wait is renewed. */
  lemma StoppedSessionsDrain(s: State, events: seq<Event>)
    requires Shape(s) && s.stopped && ValidRun(s, events)
    ensures var t := Run(s, events);
            && t.stopped
            && t.log.completed + Rank(t) <= s.log.completed + Rank(s) <= s.log.completed + 3
            && t.log.started + Credit(t) <= s.log.started + Credit(s) <= s.log.started + 1
            && t.timers <= s.timers
    decreases |events|
  {
    hide Step, Enabled;
    RankOfOne(s);
    if events != [] {
      StepShape(s, events[0]);
      StepDrains(s, events[0]);
      hide Shape;
      StoppedSessionsDrain(Step(s, events[0]), events[1..]);
    }
  }

  /** What stops a session: the timer expires, a host does not resolve or cannot be
      connected to, the client closes instead of sending a header, or the server
      resets the connection instead of replying. */
  ghost predicate StopCause(s: State, e: Event) {
    match e
    case TimerDone(ec) => ec == Success
    case Resolved(_, ec, _, _) => ec != Success
    case Connected(_, ec, _, _) => ec != Success
    case Broken(k, ec, _) =>
      k < |s.pending| && s.pending[k].ReadHeader? &&
      ec == if s.pending[k].dir.Request? then Eof else Reset
    case _ => false
  }

  lemma ReadBodyStopped(s: State, dir: Dir, id: nat, epoch: nat, header: string)
    requires id < |s.messages|
    ensures ReadBody(s, dir, id, epoch, header).stopped == s.stopped
  {
    hide IdentifyBody, Declared, Find;
  }

  lemma HeaderReadStopped(s: State, dir: Dir, id: nat, epoch: nat, ec: ErrorCode, headerLen: nat, verdict: Verdict)
    requires id < |s.messages| && headerLen <= |s.Text(dir, id)| && (ec != Success ==> headerLen == 0)
    ensures HeaderRead(s, dir, id, epoch, ec, headerLen, verdict).stopped <==>
            s.stopped || ec == if dir.Request? then Eof else Reset
  {
    hide ReadBody, ParseField;
    var text := s.Text(dir, id);
    var parsed := ParseField(text, "host");
    if dir.Request? && parsed.Value? {
      ReadBodyStopped(SetHost(s, parsed.text), dir, id, epoch, text[..headerLen]);
    } else if dir.Reply? {
      ReadBodyStopped(s, dir, id, epoch, text[..headerLen]);
    }
  }

  lemma HeaderArrivedStopped(s: State, chunk: string, verdict: Verdict)
    requires Shape(s) && s.pending != [] && s.pending[0].ReadHeader?
    ensures HeaderArrived(s, 0, chunk, verdict).stopped == s.stopped
  {
    hide PartialSearch, HeaderRead, HeaderReceived, HeaderFinished, Base;
    HeaderReceivedKeeps(s, chunk);
    var op, u := s.pending[0], HeaderFinished(s, 0, chunk);
    var scan := PartialSearch(u.Text(op.dir, op.id), HEADER_END, op.pos);
    if scan.full {
      HeaderReadStopped(u, op.dir, op.id, op.epoch, Success, scan.pos + |HEADER_END|, verdict);
    }
  }

  lemma ReadBodyTimers(s: State, dir: Dir, id: nat, epoch: nat, header: string)
    requires id < |s.messages|
    ensures ReadBody(s, dir, id, epoch, header).timers == s.timers
  {
    hide IdentifyBody, Declared, Find;
  }

  lemma HeaderReadTimers(s: State, dir: Dir, id: nat, epoch: nat, ec: ErrorCode, headerLen: nat, verdict: Verdict)
    requires id < |s.messages| && headerLen <= |s.Text(dir, id)|
    ensures HeaderRead(s, dir, id, epoch, ec, headerLen, verdict).timers == s.timers
  {
    hide ReadBody, ParseField;
    var text := s.Text(dir, id);
    var parsed := ParseField(text, "host");
    if dir.Request? && parsed.Value? {
      ReadBodyTimers(SetHost(s, parsed.text), dir, id, epoch, text[..headerLen]);
    } else if dir.Reply? {
      ReadBodyTimers(s, dir, id, epoch, text[..headerLen]);
    }
  }

  lemma HeaderArrivedTimers(s: State, chunk: string, verdict: Verdict)
    requires Shape(s) && s.pending != [] && s.pending[0].ReadHeader?
    ensures HeaderArrived(s, 0, chunk, verdict).timers == s.timers
  {
    hide PartialSearch, HeaderRead, HeaderReceived, HeaderFinished, Base;
    HeaderReceivedKeeps(s, chunk);
    var op, u := s.pending[0], HeaderFinished(s, 0, chunk);
    var scan := PartialSearch(u.Text(op.dir, op.id), HEADER_END, op.pos);
    if scan.full {
      HeaderReadTimers(u, op.dir, op.id, op.epoch, Success, scan.pos + |HEADER_END|, verdict);
    }
  }

  lemma BodyReadStays(s: State, dir: Dir, id: nat, body: string, ec: ErrorCode)
    requires id < |s.messages|
    ensures var t := BodyRead(s, dir, id, body, ec); t.stopped == s.stopped && t.timers == s.timers
  {
  }

  lemma ArrivedStays(s: State, chunk: string, verdict: Verdict)
    requires Shape(s) && Enabled(s, Arrived(0, chunk, verdict))
    ensures var t := Step(s, Arrived(0, chunk, verdict)); t.stopped == s.stopped && t.timers == s.timers
  {
    hide BodyRead, HeaderArrived, PartialSearch, Base;
    match s.pending[0]
    case ReadHeader(_, _, _, _) =>
      HeaderArrivedStopped(s, chunk, verdict);
      HeaderArrivedTimers(s, chunk, verdict);
    case ReadCounted(dir, id, _, body, _) =>
      BodyReadStays(Finish(Receive(s, dir, chunk), 0), dir, id, body + chunk, Success);
    case ReadChunks(dir, id, _, body, _) =>
      BodyReadStays(Finish(Receive(s, dir, chunk), 0), dir, id, body + chunk, Success);
  }

  lemma AcceptedStays(s: State, count: nat)
    requires Shape(s) && Enabled(s, Accepted(0, count))
    ensures var t := Step(s, Accepted(0, count)); t.stopped == s.stopped && t.timers == s.timers
  {
    hide Base, Fits, MessageWritten;
    var op := s.pending[0];
    var t := Deliver(s, op.dir, op.data[op.sent..op.sent + count]);
    MessageWrittenStays(Finish(t, 0), op.dir, op.id, Success);
  }

  lemma BrokenStops(s: State, ec: ErrorCode, verdict: Verdict)
    requires Shape(s) && Enabled(s, Broken(0, ec, verdict))
    ensures var t := Step(s, Broken(0, ec, verdict));
            && t.timers == s.timers
            && (t.stopped <==> s.stopped || StopCause(s, Broken(0, ec, verdict)))
  {
    hide BodyRead, HeaderRead, MessageWritten, Base;
    match s.pending[0]
    case ReadHeader(dir, id, epoch, _) =>
      HeaderReadStopped(Finish(s, 0), dir, id, epoch, ec, 0, verdict);
      HeaderReadTimers(Finish(s, 0), dir, id, epoch, ec, 0, verdict);
    case ReadCounted(dir, id, _, body, _) => BodyReadStays(Finish(s, 0), dir, id, body, ec);
    case ReadChunks(dir, id, _, body, _) => BodyReadStays(Finish(s, 0), dir, id, body, ec);
    case Write(dir, id, _, _, _) => MessageWrittenStays(Finish(s, 0), dir, id, ec);
  }

  lemma ConnectingStops(s: State, e: Event)
    requires Shape(s) && Enabled(s, e) && (e.Resolved? || e.Connected?)
    ensures var t := Step(s, e); t.timers == s.timers && (t.stopped <==> s.stopped || StopCause(s, e))
  {
    hide Base, Fits, ServerResolved, ServerConnected;
    match e
    case Resolved(_, ec, endpoints, open) => ServerResolvedStops(Finish(s, 0), s.pending[0].id, ec, endpoints, open);
    case Connected(_, ec, endpoint, open) => ServerConnectedStops(Finish(s, 0), s.pending[0].id, ec, endpoint, open);
  }

  /** Both flags of a session after any step. */
  lemma StepStops(s: State, e: Event)
    requires Shape(s) && Enabled(s, e)
    ensures Step(s, e).stopped <==> s.stopped || StopCause(s, e)
    ensures !e.TimerDone? ==> Step(s, e).timers == s.timers
    ensures e.TimerDone? ==> Step(s, e).timers == s.timers - if !s.stopped && e.ec == Aborted then 0 else 1
  {
    hide Step, StopCause, Base, Fits, Holds;
    match e
    case Arrived(_, chunk, verdict) =>
      ArrivedStays(s, chunk, verdict);
      NoCause(s, e);
    case Accepted(_, count) =>
      AcceptedStays(s, count);
      NoCause(s, e);
    case Broken(_, ec, verdict) => BrokenStops(s, ec, verdict);
    case Resolved(_, _, _, _) => ConnectingStops(s, e);
    case Connected(_, _, _, _) => ConnectingStops(s, e);
    case TimerDone(ec) => TimerStops(s, ec);
  }

  lemma NoCause(s: State, e: Event)
    requires e.Arrived? || e.Accepted?
    ensures !StopCause(s, e)
  {
  }

  /** A session stops at one of these and at nothing else, and never restarts. */
  lemma StopsExactly(s: State, e: Event)
    requires Reachable(s) && Enabled(s, e)
    ensures Step(s, e).stopped <==> s.stopped || StopCause(s, e)
  {
    hide *;
    ReachableShape(s);
    StepStops(s, e);
  }

  lemma MessageWrittenStays(s: State, dir: Dir, id: nat, ec: ErrorCode)
    ensures var t := MessageWritten(s, dir, id, ec); t.stopped == s.stopped && t.timers == s.timers
  {
  }

  lemma ServerResolvedStops(s: State, id: nat, ec: ErrorCode, endpoints: seq<Endpoint>, open: bool)
    ensures var t := ServerResolved(s, id, ec, endpoints, open);
            t.timers == s.timers && (t.stopped <==> s.stopped || ec != Success)
  {
  }

  lemma ServerConnectedStops(s: State, id: nat, ec: ErrorCode, endpoint: Endpoint, open: bool)
    requires id < |s.messages|
    ensures var t := ServerConnected(s, id, ec, endpoint, open);
            t.timers == s.timers && (t.stopped <==> s.stopped || ec != Success)
  {
  }

  lemma TimerStops(s: State, ec: ErrorCode)
    requires Enabled(s, TimerDone(ec))
    ensures var t := Step(s, TimerDone(ec));
            && (t.stopped <==> s.stopped || StopCause(s, TimerDone(ec)))
            && t.timers == s.timers - if !s.stopped && ec == Aborted then 0 else 1
  {
    hide Fits;
  }

  /** A session that runs is watched: a step leaves it without its timer wait only if it
      stops, or if the wait itself failed with something else than a cancellation. */
  lemma WatchdogStays(s: State, e: Event)
    requires Reachable(s) && Enabled(s, e) && s.timers == 1 && !Step(s, e).stopped
    ensures Step(s, e).timers == 1 <==> !(e.TimerDone? && e.ec != Aborted)
  {
    ReachableShape(s);
    StepStops(s, e);
    hide Reachable, Enabled, Step, Shape;
  }

  /** Which failed reads and writes end the process: any failed write, and any read
      error the handlers do not know, the known ones being a cancellation and the
      end of the stream, and a reset where a reply header was expected. A stopped
      session survives all of them except a failed body read. */
  lemma FatalErrors(s: State, ec: ErrorCode, verdict: Verdict)
    requires Reachable(s) && Enabled(s, Broken(0, ec, verdict))
    ensures Step(s, Broken(0, ec, verdict)).failed <==>
            match s.pending[0]
            case ReadHeader(dir, _, _, _) => !s.stopped && (ec == Unknown || (ec == Reset && dir.Request?))
            case Write(_, _, _, _, _) => !s.stopped
            case _ => ec == Unknown || ec == Reset
  {
    hide Reachable, Base, MessageRead, ReadBody;
    ReachableShape(s);
  }

  /** An event that lets the pending handler or the timer handler run with an error. */
  function Aborting(s: State): Event {
    if s.pending == [] then TimerDone(Aborted)
    else match s.pending[0]
      case Resolve(_, _) => Resolved(0, Aborted, [], s.serverOpen)
      case Connect(_, _) => Connected(0, Aborted, Endpoint("", 0), s.serverOpen)
      case _ => Broken(0, Aborted, Proceed)
  }

  /** A session is never stuck and never lingers: something can still happen
      exactly while some handler is pending, and then a cancelled operation alone
      is enough to let a handler run. */
  lemma LiveExactlyWhilePending(s: State)
    requires Reachable(s) && !s.failed
    ensures (exists e :: Enabled(s, e)) <==> Rank(s) > 0
    ensures Rank(s) > 0 ==> Enabled(s, Aborting(s)) && Step(s, Aborting(s)).log.completed == s.log.completed + 1
  {
    hide Reachable, MessageRead, ReadBody;
    ReachableShape(s);
    RankOfOne(s);
    if Rank(s) > 0 {
      assert Enabled(s, Aborting(s));
    }
  }
}
