/** Byte conservation: what is written to one peer is what was read from the other. */
module RelayFlow {
  import opened Search
  import opened Http
  import opened Relay
  import opened RelayShape

  /** All messages of one direction, one after the other. */
  ghost function Texts(messages: seq<Exchange>, dir: Dir): string {
    if messages == [] then ""
    else Texts(messages[..|messages| - 1], dir) + TextOf(messages[|messages| - 1], dir)
  }

  /** The messages before the last. */
  ghost function Earlier(s: State, dir: Dir): string
    requires s.messages != []
  {
    Texts(s.messages[..|s.messages| - 1], dir)
  }

  /** Body bytes that have been read but are not yet part of the message. */
  ghost function InFlight(s: State, dir: Dir): string {
    if s.pending == [] then ""
    else match s.pending[0]
      case ReadCounted(d, _, _, body, _) => if d == dir then body else ""
      case ReadChunks(d, _, _, body, _) => if d == dir then body else ""
      case _ => ""
  }

  ghost predicate IsWrite(s: State, dir: Dir) {
    s.pending != [] && s.pending[0].Write? && s.pending[0].dir == dir
  }

  ghost predicate FlowInv(s: State, dir: Dir) {
    && s.messages != []
    && var flow, all := s.log.FlowOf(dir), Texts(s.messages, dir);
    && flow.read == all + InFlight(s, dir)
    && Earlier(s, dir) <= flow.written <= all
    && (Stage(s) > ReadStage(dir) + 1 ==> flow.written == all)
    && (s.pending != [] && Stage(s) <= ReadStage(dir) + 1 ==>
          if IsWrite(s, dir) then
            && s.pending[0].sent <= |s.pending[0].data|
            && s.pending[0].data == s.Text(dir, |s.messages| - 1)
            && flow.written == Earlier(s, dir) + s.pending[0].data[..s.pending[0].sent]
          else flow.written == Earlier(s, dir))
  }

  /** The same between two operations. */
  ghost predicate FlowReady(s: State, dir: Dir) {
    && s.messages != [] && s.pending == []
    && var flow, all := s.log.FlowOf(dir), Texts(s.messages, dir);
    && flow.read == all
    && flow.written == if Stage(s) > ReadStage(dir) + 1 then all else Earlier(s, dir)
  }

  lemma TextsAppend(s: State, dir: Dir, chunk: string, d: Dir)
    requires s.messages != []
    ensures var t := Append(s, dir, |s.messages| - 1, chunk);
            && Texts(t.messages, d) == Texts(s.messages, d) + (if d == dir then chunk else "")
            && Earlier(t, d) == Earlier(s, d)
  {
    var n := |s.messages| - 1;
    var t := Append(s, dir, n, chunk);
    assert t.messages[..n] == s.messages[..n];
    var front, last := Texts(s.messages[..n], d), TextOf(s.messages[n], d);
    assert front + (last + chunk) == front + last + chunk;
  }

  lemma TextsPush(messages: seq<Exchange>, d: Dir)
    ensures Texts(messages + [Exchange("", "")], d) == Texts(messages, d)
  {
    assert (messages + [Exchange("", "")])[..|messages|] == messages;
  }

  lemma FreshFlow(d: Dir)
    ensures FlowInv(Start(Fresh()), d)
  {
    TextsPush([], d);
  }

  lemma TextsSplit(s: State, d: Dir)
    requires s.messages != []
    ensures Texts(s.messages, d) == Earlier(s, d) + s.Text(d, |s.messages| - 1)
  {
  }

  /** Handlers that start nothing, or something that is not a write. */
  lemma ReadyFlow(s: State, t: State, d: Dir)
    requires FlowReady(s, d)
    requires t.messages == s.messages && t.log.FlowOf(d) == s.log.FlowOf(d) && Stage(t) == Stage(s)
    requires InFlight(t, d) == "" && (t.pending == [] || !t.pending[0].Write?)
    ensures FlowInv(t, d)
  {
    hide Texts;
    TextsSplit(s, d);
  }

  /** Starting to write the last message of a direction. */
  lemma StartWriteFlow(s: State, t: State, d: Dir)
    requires s.messages != [] && FlowReady(s, d)
    requires t.messages == s.messages && t.log.FlowOf(d) == s.log.FlowOf(d) && Stage(t) == Stage(s)
    requires |t.pending| == 1 && t.pending[0].Write? && t.pending[0].sent == 0
    requires Stage(t) == ReadStage(t.pending[0].dir) + 1
    requires t.pending[0].data == t.Text(t.pending[0].dir, |t.messages| - 1)
    ensures FlowInv(t, d)
  {
    hide Texts;
    TextsSplit(s, d);
    assert t.pending[0].data[..0] == "";
  }

  lemma ResolveServerFlow(s: State, d: Dir)
    requires Ready(s, 1) && FlowReady(s, d)
    ensures FlowInv(ResolveServer(s, |s.messages| - 1), d)
  {
    hide Texts, FlowInv, FlowReady, Base;
    var t := ResolveServer(s, |s.messages| - 1);
    if t.pending[0].Write? {
      StartWriteFlow(s, t, d);
    } else {
      ReadyFlow(s, t, d);
    }
  }

  lemma DoneFlow(s: State, dir: Dir, d: Dir)
    requires Ready(s, ReadStage(dir)) && FlowReady(s, d)
    ensures FlowReady(Done(s, ReadStage(dir), |s.messages| - 1), d)
  {
    hide Texts;
  }

  lemma MessageReadFlow(s: State, dir: Dir, d: Dir)
    requires Ready(s, ReadStage(dir)) && FlowReady(s, d)
    ensures FlowInv(MessageRead(s, dir, |s.messages| - 1), d)
  {
    hide Texts, FlowInv, FlowReady, Base, ResolveServer;
    var t := Done(s, ReadStage(dir), |s.messages| - 1);
    DoneFlow(s, dir, d);
    DoneReady(s, ReadStage(dir));
    if dir.Request? {
      ResolveServerFlow(t, d);
    } else {
      StartWriteFlow(t, SendMessageToClient(Answered(t), |s.messages| - 1), d);
    }
  }

  lemma ReadBodyFlow(s: State, dir: Dir, header: string, d: Dir)
    requires Ready(s, ReadStage(dir)) && FlowReady(s, d)
    ensures FlowInv(ReadBody(s, dir, |s.messages| - 1, |s.messages|, header), d)
  {
    hide IdentifyBody, Declared, Find, Texts, MessageRead, FlowInv, FlowReady;
    var t := ReadBody(s, dir, |s.messages| - 1, |s.messages|, header);
    if t == MessageRead(s, dir, |s.messages| - 1) {
      MessageReadFlow(s, dir, d);
    } else {
      ReadyFlow(s, t, d);
    }
  }

  lemma HeaderReadFlow(s: State, dir: Dir, ec: ErrorCode, headerLen: nat, verdict: Verdict, d: Dir)
    requires Ready(s, ReadStage(dir)) && FlowReady(s, d)
    requires headerLen <= |s.Text(dir, |s.messages| - 1)|
    ensures FlowInv(HeaderRead(s, dir, |s.messages| - 1, |s.messages|, ec, headerLen, verdict), d)
  {
    hide ReadBody, ParseField, Texts, FlowInv;
    var text := s.Text(dir, |s.messages| - 1);
    ReadyFlow(s, s, d);
    ReadyFlow(s, Close(s), d);
    ReadyFlow(s, Throw(s), d);
    if dir.Request? {
      var parsed := ParseField(text, "host");
      if parsed.Value? {
        ReadBodyFlow(SetHost(s, parsed.text), dir, text[..headerLen], d);
      }
    } else {
      ReadBodyFlow(s, dir, text[..headerLen], d);
    }
  }

  /** A body read ends: its bytes move from the buffer into the message. */
  lemma BodyReadFlow(s: State, dir: Dir, body: string, ec: ErrorCode, d: Dir)
    requires Ready(s, ReadStage(dir)) && s.pending == []
    requires FlowReady(Append(s, dir, |s.messages| - 1, body), d)
    ensures FlowInv(BodyRead(s, dir, |s.messages| - 1, body, ec), d)
  {
    hide MessageRead, Texts, FlowInv;
    var t := Append(s, dir, |s.messages| - 1, body);
    ReadyFlow(t, t, d);
    ReadyFlow(t, Throw(t), d);
    MessageReadFlow(t, dir, d);
  }

  lemma MessageWrittenFlow(s: State, dir: Dir, d: Dir)
    requires Ready(s, ReadStage(dir) + 1) && s.pending == []
    requires s.log.FlowOf(d).read == Texts(s.messages, d)
    requires s.log.FlowOf(d).written == if ReadStage(d) <= ReadStage(dir) then Texts(s.messages, d) else Earlier(s, d)
    ensures FlowInv(MessageWritten(s, dir, |s.messages| - 1, Success), d)
  {
    hide Texts;
    TextsSplit(s, d);
    TextsPush(s.messages, d);
    assert (s.messages + [Exchange("", "")])[..|s.messages|] == s.messages;
  }

  lemma WrittenPart(s: State, count: nat, d: Dir)
    requires FlowInv(s, d) && IsWrite(s, d) && Stage(s) == ReadStage(d) + 1
    requires s.pending[0].sent + count <= |s.pending[0].data|
    ensures var op := s.pending[0];
            s.log.FlowOf(d).written + op.data[op.sent..op.sent + count] == Earlier(s, d) + op.data[..op.sent + count]
  {
    hide Texts, Earlier, InFlight, TextOf;
    SliceOn(Earlier(s, d), s.pending[0].data, s.pending[0].sent, count);
  }

  lemma SliceOn(front: string, data: string, sent: nat, count: nat)
    requires sent + count <= |data|
    ensures (front + data[..sent]) + data[sent..sent + count] == front + data[..sent + count]
  {
    assert data[..sent + count] == data[..sent] + data[sent..sent + count];
    Associative(front, data[..sent], data[sent..sent + count]);
  }

  lemma PrefixStep(front: string, data: string, k: nat)
    requires k <= |data|
    ensures front <= front + data[..k] <= front + data
  {
    assert data == data[..k] + data[k..];
    assert front + (data[..k] + data[k..]) == (front + data[..k]) + data[k..];
  }

  lemma WriteGoesOnFlow(s: State, count: nat, d: Dir)
    requires FlowInv(s, d) && |s.pending| == 1 && s.pending[0].Write?
    requires Stage(s) == ReadStage(s.pending[0].dir) + 1
    requires s.pending[0].sent + count < |s.pending[0].data|
    ensures FlowInv(WriteAccepted(s, 0, count), d)
  {
    hide Texts, MessageWritten;
    var t := WriteAccepted(s, 0, count);
    assert Earlier(t, d) == Earlier(s, d) && Stage(t) == Stage(s) && InFlight(t, d) == "";
    TextsSplit(s, d);
    if s.pending[0].dir == d {
      WrittenPart(s, count, d);
      PrefixStep(Earlier(s, d), s.pending[0].data, s.pending[0].sent + count);
      assert t.log.FlowOf(d).written == Earlier(s, d) + s.pending[0].data[..s.pending[0].sent + count];
    } else {
      assert t.log.FlowOf(d) == s.log.FlowOf(d);
    }
  }

  lemma WriteEndsFlow(s: State, d: Dir)
    requires Shape(s) && FlowInv(s, d) && s.pending != [] && s.pending[0].Write?
    ensures FlowInv(WriteAccepted(s, 0, |s.pending[0].data| - s.pending[0].sent), d)
  {
    hide Texts, MessageWritten;
    TextsSplit(s, d);
    var op := s.pending[0];
    var t := Finish(Deliver(s, op.dir, op.data[op.sent..]), 0);
    assert op.data[op.sent..] == op.data[op.sent..|op.data|];
    if op.dir == d {
      WrittenPart(s, |op.data| - op.sent, d);
      assert op.data[..|op.data|] == op.data;
    }
    FinishReady(Deliver(s, op.dir, op.data[op.sent..]), 0);
    hide FlowInv;
    MessageWrittenFlow(t, op.dir, d);
  }

  lemma FinishFlow(s: State, d: Dir)
    requires Shape(s) && FlowInv(s, d) && s.pending != []
    requires !s.pending[0].ReadCounted? && !s.pending[0].ReadChunks? && !s.pending[0].Write?
    ensures FlowReady(Finish(s, 0), d)
  {
    hide Texts;
    FinishReady(s, 0);
  }

  lemma HeaderReceivedFlow(s: State, chunk: string, d: Dir)
    requires Shape(s) && FlowInv(s, d) && s.pending != [] && s.pending[0].ReadHeader?
    ensures FlowInv(HeaderReceived(s, 0, chunk), d)
  {
    hide Texts;
    var op := s.pending[0];
    TextsAppend(Receive(s, op.dir, chunk), op.dir, chunk, d);
    TextsSplit(HeaderReceived(s, 0, chunk), d);
  }

  lemma HeadedFlow(s: State, dir: Dir, n: nat, d: Dir)
    requires Shape(s) && FlowInv(s, d)
    ensures Shape(Headed(s, dir, n)) && FlowInv(Headed(s, dir, n), d)
  {
    hide Texts;
  }

  lemma HeaderFinishedIs(s: State, chunk: string)
    requires Shape(s) && s.pending != [] && s.pending[0].ReadHeader?
    ensures var op, t := s.pending[0], HeaderReceived(s, 0, chunk);
            && op.id < |t.messages| && t.pending == s.pending
            && HeaderFinished(s, 0, chunk) == Finish(Headed(t, op.dir, |t.Text(op.dir, op.id)|), 0)
  {
    hide Base, HeaderReceived;
  }

  lemma HeaderFinishedFlow(s: State, chunk: string, d: Dir)
    requires Shape(s) && FlowInv(s, d) && s.pending != [] && s.pending[0].ReadHeader?
    ensures FlowReady(HeaderFinished(s, 0, chunk), d)
  {
    HeaderFinishedIs(s, chunk);
    hide HeaderReceived, HeaderFinished, Finish, Shape, FlowInv, FlowReady, Texts;
    HeaderReceivedFlow(s, chunk, d);
    HeaderReceivedShape(s, chunk);
    var op, t := s.pending[0], HeaderReceived(s, 0, chunk);
    HeadedFlow(t, op.dir, |t.Text(op.dir, op.id)|, d);
    FinishFlow(Headed(t, op.dir, |t.Text(op.dir, op.id)|), d);
  }

  /** Progress of a read that has no buffer of its own. */
  lemma ProgressFlow(s: State, op: Op, d: Dir)
    requires FlowInv(s, d) && |s.pending| == 1
    requires s.pending[0].ReadHeader? && op.ReadHeader?
    ensures FlowInv(s.(pending := s.pending[0 := op]), d)
  {
    hide Texts;
  }

  lemma HeaderArrivedFlow(s: State, chunk: string, verdict: Verdict, d: Dir)
    requires Shape(s) && FlowInv(s, d) && s.pending != [] && s.pending[0].ReadHeader?
    ensures FlowInv(HeaderArrived(s, 0, chunk, verdict), d)
  {
    hide PartialSearch, HeaderRead, HeaderReceived, HeaderFinished, FlowInv, FlowReady, Base;
    HeaderReceivedShape(s, chunk);
    HeaderReceivedFlow(s, chunk, d);
    HeaderFinishedFlow(s, chunk, d);
    var op, t := s.pending[0], HeaderReceived(s, 0, chunk);
    var scan := PartialSearch(t.Text(op.dir, op.id), HEADER_END, op.pos);
    if scan.full {
      HeaderReadFlow(HeaderFinished(s, 0, chunk), op.dir, Success, scan.pos + |HEADER_END|, verdict, d);
    } else {
      ProgressFlow(t, ReadHeader(op.dir, op.id, op.epoch, scan.pos), d);
    }
  }

  lemma ReadingFlow(s: State, d: Dir)
    requires Shape(s) && FlowInv(s, d) && s.pending != []
    requires s.pending[0].ReadCounted? || s.pending[0].ReadChunks?
    ensures var op, flow := s.pending[0], s.log.FlowOf(d);
            && flow.read == Texts(s.messages, d) + (if op.dir == d then op.body else "")
            && flow.written == if Stage(s) > ReadStage(d) + 1 then Texts(s.messages, d) else Earlier(s, d)
  {
    hide Texts, Base, Fits;
  }

  lemma FinishBody(s: State, chunk: string)
    requires Shape(s) && s.pending != []
    requires s.pending[0].ReadCounted? || s.pending[0].ReadChunks?
    ensures var op, t := s.pending[0], Finish(Receive(s, s.pending[0].dir, chunk), 0);
            && op.id == |s.messages| - 1 && Ready(t, ReadStage(op.dir))
            && s.messages != [] && t.messages == s.messages && t.pending == []
            && Stage(t) == Stage(s) == ReadStage(op.dir)
            && (forall d :: t.log.FlowOf(d).written == s.log.FlowOf(d).written)
            && (forall d :: t.log.FlowOf(d).read == s.log.FlowOf(d).read + if op.dir == d then chunk else "")
  {
    FinishReady(Receive(s, s.pending[0].dir, chunk), 0);
    hide Base;
  }

  /** The bytes that were in flight are now in the message. */
  lemma BodyAppendedFlow(s: State, chunk: string, d: Dir)
    requires Shape(s) && FlowInv(s, d) && s.pending != []
    requires s.pending[0].ReadCounted? || s.pending[0].ReadChunks?
    ensures var op, t := s.pending[0], Finish(Receive(s, s.pending[0].dir, chunk), 0);
            && op.id == |s.messages| - 1 && Ready(t, ReadStage(op.dir))
            && FlowReady(Append(t, op.dir, op.id, op.body + chunk), d)
  {
    hide Texts, Shape, FlowInv, Ready, Finish, InFlight, TextOf;
    var op, t := s.pending[0], Finish(Receive(s, s.pending[0].dir, chunk), 0);
    FinishBody(s, chunk);
    ReadingFlow(s, d);
    TextsAppend(t, op.dir, op.body + chunk, d);
    if op.dir == d {
      Associative(Texts(s.messages, d), op.body, chunk);
    } else {
      assert Texts(s.messages, d) + "" == Texts(s.messages, d);
    }
  }

  lemma BodyDoneFlow(s: State, chunk: string, ec: ErrorCode, d: Dir)
    requires Shape(s) && FlowInv(s, d) && s.pending != []
    requires s.pending[0].ReadCounted? || s.pending[0].ReadChunks?
    ensures var op := s.pending[0];
            FlowInv(BodyRead(Finish(Receive(s, op.dir, chunk), 0), op.dir, op.id, op.body + chunk, ec), d)
  {
    hide FlowInv, FlowReady, BodyRead, Append, Shape, Base, Stage;
    var op := s.pending[0];
    BodyAppendedFlow(s, chunk, d);
    BodyReadFlow(Finish(Receive(s, op.dir, chunk), 0), op.dir, op.body + chunk, ec, d);
  }

  lemma BodyProgressFlow(s: State, chunk: string, op: Op, d: Dir)
    requires Shape(s) && FlowInv(s, d) && s.pending != []
    requires s.pending[0].ReadCounted? || s.pending[0].ReadChunks?
    requires op.ReadCounted? || op.ReadChunks?
    requires op.dir == s.pending[0].dir && op.body == s.pending[0].body + chunk
    ensures FlowInv(Receive(s, op.dir, chunk).(pending := s.pending[0 := op]), d)
  {
    hide Texts, Base, Holds;
    Associative(Texts(s.messages, d), s.pending[0].body, chunk);
  }

  lemma BodyArrivedFlow(s: State, chunk: string, d: Dir)
    requires Shape(s) && FlowInv(s, d) && s.pending != []
    ensures s.pending[0].ReadCounted? ==> FlowInv(CountedArrived(s, 0, chunk), d)
    ensures s.pending[0].ReadChunks? ==> FlowInv(ChunksArrived(s, 0, chunk), d)
  {
    hide Texts, BodyRead, PartialSearch, FlowInv;
    var op := s.pending[0];
    if op.ReadCounted? {
      BodyDoneFlow(s, chunk, Success, d);
      BodyProgressFlow(s, chunk, ReadCounted(op.dir, op.id, op.epoch, op.body + chunk, op.limit), d);
    } else if op.ReadChunks? {
      BodyDoneFlow(s, chunk, Success, d);
      var scan := PartialSearch(op.body + chunk, LAST_CHUNK, op.pos);
      BodyProgressFlow(s, chunk, ReadChunks(op.dir, op.id, op.epoch, op.body + chunk, scan.pos), d);
    }
  }

  lemma WriteBrokenFlow(s: State, ec: ErrorCode, d: Dir)
    requires Shape(s) && FlowInv(s, d) && s.pending != [] && s.pending[0].Write? && ec != Success
    ensures FlowInv(MessageWritten(Finish(s, 0), s.pending[0].dir, s.pending[0].id, ec), d)
  {
    hide Texts, Base;
    TextsSplit(s, d);
  }

  lemma BrokenFlow(s: State, ec: ErrorCode, verdict: Verdict, d: Dir)
    requires Shape(s) && FlowInv(s, d) && Enabled(s, Broken(0, ec, verdict))
    ensures FlowInv(OpBroken(s, 0, ec, verdict), d)
  {
    hide Texts, HeaderRead, BodyRead, MessageWritten, FlowInv, FlowReady, Base;
    FinishReady(s, 0);
    match s.pending[0]
    case ReadHeader(dir, _, _, _) =>
      FinishFlow(s, d);
      HeaderReadFlow(Finish(s, 0), dir, ec, 0, verdict, d);
    case Write(_, _, _, _, _) => WriteBrokenFlow(s, ec, d);
    case ReadCounted(_, _, _, _, _) => BodyBrokenFlow(s, ec, d);
    case ReadChunks(_, _, _, _, _) => BodyBrokenFlow(s, ec, d);
  }

  lemma BodyBrokenFlow(s: State, ec: ErrorCode, d: Dir)
    requires Shape(s) && FlowInv(s, d) && s.pending != []
    requires s.pending[0].ReadCounted? || s.pending[0].ReadChunks?
    ensures var op := s.pending[0]; FlowInv(BodyRead(Finish(s, 0), op.dir, op.id, op.body, ec), d)
  {
    hide FlowInv, BodyRead;
    var op := s.pending[0];
    BodyDoneFlow(s, "", ec, d);
    assert op.body + "" == op.body;
    var flow := s.log.FlowOf(op.dir);
    assert flow.read + "" == flow.read;
    assert Receive(s, op.dir, "") == s;
  }

  lemma ConnectingFlow(s: State, e: Event, d: Dir)
    requires Shape(s) && FlowInv(s, d) && Enabled(s, e)
    requires e.Resolved? || e.Connected?
    ensures FlowInv(Step(s, e), d)
  {
    hide FlowInv, FlowReady, Texts;
    FinishFlow(s, d) by {
      assert s.pending[0].Resolve? || s.pending[0].Connect?;
    }
    ConnectingKeeps(s, e);
    hide Step, Enabled, Shape, Base;
    var t := Step(s, e);
    if t.pending != [] && t.pending[0].Write? {
      StartWriteFlow(Finish(s, 0), t, d);
    } else {
      ReadyFlow(Finish(s, 0), t, d);
    }
  }

  lemma TimerFlow(s: State, ec: ErrorCode, d: Dir)
    requires FlowInv(s, d) && Enabled(s, TimerDone(ec))
    ensures FlowInv(Step(s, TimerDone(ec)), d)
  {
    hide Texts, Step, Enabled, TextOf;
    TimerKeeps(s, ec);
  }

  lemma StepFlow(s: State, e: Event, d: Dir)
    requires Shape(s) && FlowInv(s, d) && Enabled(s, e)
    ensures FlowInv(Step(s, e), d)
  {
    hide HeaderArrived, CountedArrived, ChunksArrived, WriteAccepted, OpBroken;
    hide ServerResolved, ServerConnected, HandleWait;
    hide Base, Fits, FlowInv;
    match e
    case Arrived(k, chunk, verdict) =>
      if s.pending[k].ReadHeader? {
        HeaderArrivedFlow(s, chunk, verdict, d);
      } else {
        BodyArrivedFlow(s, chunk, d);
      }
    case Accepted(_, count) =>
      if s.pending[0].sent + count < |s.pending[0].data| {
        WriteGoesOnFlow(s, count, d);
      } else {
        WriteEndsFlow(s, d);
      }
    case Broken(_, ec, verdict) => BrokenFlow(s, ec, verdict, d);
    case TimerDone(ec) => TimerFlow(s, ec, d);
    case _ => ConnectingFlow(s, e, d);
  }

  lemma ReachableFlow(s: State, d: Dir)
    requires Reachable(s)
    ensures FlowInv(s, d)
  {
    hide Reachable, Start, Fresh, Step, Enabled, Shape, FlowInv;
    FreshShape();
    FreshFlow(d);
    forall t, e | Shape(t) && FlowInv(t, d) && Enabled(t, e) ensures Shape(Step(t, e)) && FlowInv(Step(t, e), d) {
      StepShape(t, e);
      StepFlow(t, e, d);
    }
    ReachableInduction(t => Shape(t) && FlowInv(t, d), s);
  }

  // ---- What it says ----

  /** Relay conservation, in both directions and over every run: the bytes read are
      the messages, in order, and the body now being read; the bytes written
      are all earlier messages and a prefix of the last one. So what one peer
      receives is always a prefix of what the other has sent, cut nowhere but at
      its end, and nothing read is ever dropped while the session goes on. */
  lemma RelayConserves(s: State, dir: Dir)
    requires Reachable(s)
    ensures s.messages != []
    ensures var flow := s.log.FlowOf(dir);
            && flow.read == Texts(s.messages, dir) + InFlight(s, dir)
            && Earlier(s, dir) <= flow.written <= Texts(s.messages, dir)
            && flow.written <= flow.read
            && (Stage(s) > ReadStage(dir) + 1 ==> flow.written == Texts(s.messages, dir))
            && (IsWrite(s, dir) ==>
                  && s.pending[0].data == s.Text(dir, |s.messages| - 1)
                  && s.pending[0].sent <= |s.pending[0].data|
                  && flow.written == Earlier(s, dir) + s.pending[0].data[..s.pending[0].sent])
  {
    ReachableShape(s);
    ReachableFlow(s, dir);
    hide Texts, Shape;
  }
}
