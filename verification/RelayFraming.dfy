/** Where a message ends. */
module RelayFraming {
  import opened Search
  import opened Http
  import opened Relay
  import opened RelayShape

  /** The length of the header a message starts with. */
  function HeaderEnd(message: string): Option<nat> {
    match Find(message, HEADER_END, 0)
    case Some(at) => Some(at + |HEADER_END|)
    case None => None
  }

  /** A message that was read to its end, of which `head` bytes had arrived when its
      header was complete. With a declared length, what follows the header is that
      long, up to a multiple of the `size_t` range. A chunked message ends with the
      header read if the last chunk came along with it; else the last chunk is in what
      was read later. A message without a body ends with the header read. */
  ghost predicate Framed(message: string, head: nat) {
    match HeaderEnd(message)
    case None => false
    case Some(h) =>
      h <= head <= |message| &&
      match IdentifyBody(message[..h])
      case ContentLength =>
        Declared(message[..h]).Some? &&
        (|message| - h - Declared(message[..h]).value) % SIZE_MOD == 0
      case ChunkedCoding =>
        if Find(message[..head], LAST_CHUNK, h).Some? then |message| == head
        else Find(message[head..], LAST_CHUNK, 0).Some?
      case NoBody => |message| == head
  }

  ghost predicate ReadDone(s: State, i: nat, dir: Dir) {
    i < |s.messages| - 1 || (i == |s.messages| - 1 && Stage(s) > ReadStage(dir))
  }

  ghost predicate FramedAt(s: State, i: nat, dir: Dir) {
    i < |s.messages| && i < |s.log.Heads(dir)| && Framed(s.Text(dir, i), s.log.Heads(dir)[i])
  }

  ghost predicate Frames(s: State) {
    && s.messages != []
    && (forall i: nat, dir :: i < |s.messages| && ReadDone(s, i, dir) ==> FramedAt(s, i, dir))
    && |s.log.requestHeads| <= |s.messages| && |s.log.replyHeads| <= |s.messages|
    && (Stage(s) <= 1 ==> s.messages[|s.messages| - 1].reply == "" && |s.log.replyHeads| == |s.messages| - 1)
  }

  /** The header of the last message is complete, and nothing has been added since. */
  ghost predicate HeadIs(s: State, dir: Dir) {
    && s.messages != [] && |s.log.Heads(dir)| == |s.messages|
    && s.log.Heads(dir)[|s.messages| - 1] == |s.Text(dir, |s.messages| - 1)|
  }

  /** An `async_read` waiting for what is left of `length` bytes after a header of length `h`. */
  ghost predicate Counting(message: string, limit: nat, h: nat, length: nat) {
    && HeaderEnd(message) == Some(h) && h <= |message|
    && IdentifyBody(message[..h]) == ContentLength
    && Declared(message[..h]) == Some(length)
    && limit == Remaining(length, |message|, h)
  }

  /** An `async_read_until` waiting for the last chunk. */
  ghost predicate Chunking(message: string, h: nat) {
    && HeaderEnd(message) == Some(h) && h <= |message|
    && IdentifyBody(message[..h]) == ChunkedCoding
    && Find(message, LAST_CHUNK, h).None?
  }

  ghost predicate FrameOp(s: State, op: Op) {
    match op
    case ReadHeader(dir, id, _, pos) =>
      && id < |s.messages| && Searched(s.Text(dir, id), HEADER_END, pos)
      && |s.log.Heads(dir)| == |s.messages| - 1
    case ReadCounted(dir, id, _, body, limit) =>
      && id < |s.messages| && |body| <= limit && HeadIs(s, dir)
      && exists h, length :: Counting(s.Text(dir, id), limit, h, length)
    case ReadChunks(dir, id, _, body, pos) =>
      && id < |s.messages| && Searched(body, LAST_CHUNK, pos) && HeadIs(s, dir)
      && exists h :: Chunking(s.Text(dir, id), h)
    case _ => true
  }

  ghost predicate FrameInv(s: State) {
    && Frames(s)
    && (s.pending != [] ==> FrameOp(s, s.pending[0]))
  }

  lemma FreshFrames()
    ensures FrameInv(Start(Fresh()))
  {
  }

  // ---- One message ----

  lemma HeaderEndGrows(message: string, more: string)
    requires HeaderEnd(message).Some?
    ensures HeaderEnd(message + more) == HeaderEnd(message)
    ensures HeaderEnd(message).value <= |message|
    ensures (message + more)[..HeaderEnd(message).value] == message[..HeaderEnd(message).value]
  {
    FindAppend(message, more, HEADER_END, 0);
  }

  /** A full `async_read` completes the message. */
  lemma CountedIsFramed(message: string, limit: nat, h: nat, length: nat, body: string)
    requires Counting(message, limit, h, length) && |body| == limit
    ensures Framed(message + body, |message|)
  {
    hide *;
    CountingParts(message, limit, h, length);
    HeaderEndGrows(message, body);
    RemainingArithmetic(length, |message|, h);
    FramedByLength(message + body, |message|, h, length);
  }

  lemma CountingParts(message: string, limit: nat, h: nat, length: nat)
    requires Counting(message, limit, h, length)
    ensures HeaderEnd(message) == Some(h) && h <= |message|
    ensures IdentifyBody(message[..h]) == ContentLength && Declared(message[..h]) == Some(length)
    ensures limit == Remaining(length, |message|, h)
  {
  }

  lemma FramedByLength(whole: string, head: nat, h: nat, length: nat)
    requires HeaderEnd(whole) == Some(h) && h <= head <= |whole|
    requires IdentifyBody(whole[..h]) == ContentLength && Declared(whole[..h]) == Some(length)
    requires (|whole| - h - length) % SIZE_MOD == 0
    ensures Framed(whole, head)
  {
    hide Find, HeaderEnd, IdentifyBody, Declared;
  }

  lemma RemainingArithmetic(length: nat, plusLen: nat, h: nat)
    ensures (plusLen + Remaining(length, plusLen, h) - h - length) % SIZE_MOD == 0
  {
    var left := length - (plusLen - h);
    assert left % SIZE_MOD - left == -(left / SIZE_MOD) * SIZE_MOD;
  }

  /** A last chunk that arrived in the body buffer completes the message. */
  lemma ChunkedIsFramed(message: string, h: nat, body: string)
    requires Chunking(message, h) && Find(body, LAST_CHUNK, 0).Some?
    ensures Framed(message + body, |message|)
  {
    hide Find, IdentifyBody, HeaderEnd;
    HeaderEndGrows(message, body);
    var whole := message + body;
    assert whole[..|message|] == message && whole[|message|..] == body;
  }

  /** So does the header read, if nothing has to be read after it. */
  lemma HeadIsFramed(message: string, h: nat)
    requires HeaderEnd(message) == Some(h) && h <= |message|
    requires IdentifyBody(message[..h]) == NoBody ||
             (IdentifyBody(message[..h]) == ChunkedCoding && Find(message, LAST_CHUNK, h).Some?)
    ensures Framed(message, |message|)
  {
    hide Find, IdentifyBody, HeaderEnd;
    assert message[..|message|] == message;
  }

  // ---- The handlers ----

  /** Only the direction being read changes. */
  lemma AppendFrames(s: State, dir: Dir, chunk: string)
    requires Base(s) && Frames(s) && Stage(s) == ReadStage(dir)
    ensures Frames(Append(s, dir, |s.messages| - 1, chunk))
  {
    hide Framed;
    var t := Append(s, dir, |s.messages| - 1, chunk);
    forall i: nat, d | i < |t.messages| && ReadDone(t, i, d) ensures FramedAt(t, i, d) {
      assert ReadDone(s, i, d) && t.Text(d, i) == s.Text(d, i);
    }
  }

  lemma DoneFrames(s: State, dir: Dir)
    requires Ready(s, ReadStage(dir)) && Frames(s) && FramedAt(s, |s.messages| - 1, dir)
    ensures Frames(Done(s, ReadStage(dir), |s.messages| - 1))
  {
    hide Framed;
    var t := Done(s, ReadStage(dir), |s.messages| - 1);
    forall i: nat, d | i < |t.messages| && ReadDone(t, i, d) ensures FramedAt(t, i, d) {
      assert ReadDone(s, i, d) || (i == |s.messages| - 1 && d == dir);
    }
  }

  lemma ResolveServerFrames(s: State, id: nat)
    requires Frames(s) && s.pending == [] && id < |s.messages|
    ensures FrameInv(ResolveServer(s, id))
  {
    hide FramedAt, Frames;
    SameFrames(s, ResolveServer(s, id));
  }

  lemma MessageReadFrames(s: State, dir: Dir)
    requires Ready(s, ReadStage(dir)) && Frames(s) && FramedAt(s, |s.messages| - 1, dir)
    ensures FrameInv(MessageRead(s, dir, |s.messages| - 1))
  {
    DoneFrames(s, dir);
    hide FramedAt, Frames, ResolveServer, Base;
    var t := Done(s, ReadStage(dir), |s.messages| - 1);
    if dir.Request? {
      ResolveServerFrames(t, |s.messages| - 1);
    } else {
      SameFrames(t, MessageRead(s, dir, |s.messages| - 1));
    }
  }

  lemma SameFrames(s: State, t: State)
    requires Frames(s) && t.messages == s.messages && t.log.marks == s.log.marks
    requires t.log.requestHeads == s.log.requestHeads && t.log.replyHeads == s.log.replyHeads
    ensures Frames(t)
  {
    hide Framed;
    forall i: nat, d | i < |t.messages| && ReadDone(t, i, d) ensures FramedAt(t, i, d) {
      assert ReadDone(s, i, d) && t.Text(d, i) == s.Text(d, i);
    }
  }

  lemma ReadBodyFrames(s: State, dir: Dir, h: nat)
    requires Ready(s, ReadStage(dir)) && Frames(s) && HeadIs(s, dir)
    requires HeaderEnd(s.Text(dir, |s.messages| - 1)) == Some(h) && h <= |s.Text(dir, |s.messages| - 1)|
    ensures FrameInv(ReadBody(s, dir, |s.messages| - 1, |s.messages|, s.Text(dir, |s.messages| - 1)[..h]))
  {
    hide Find, IdentifyBody, Declared, HeaderEnd, MessageRead, Frames, Remaining, Framed, Base;
    var id, text := |s.messages| - 1, s.Text(dir, |s.messages| - 1);
    var header := text[..h];
    var t := ReadBody(s, dir, id, |s.messages|, header);
    if t == MessageRead(s, dir, id) && Framed(text, |text|) {
      MessageReadFrames(s, dir);
    } else if !s.stopped {
      match IdentifyBody(header)
      case ContentLength =>
        SameFrames(s, t);
        if Declared(header).Some? {
          assert Counting(t.Text(dir, id), Remaining(Declared(header).value, |text|, h), h, Declared(header).value);
        }
      case ChunkedCoding =>
        if Find(text, LAST_CHUNK, h).None? {
          SameFrames(s, t);
          assert Chunking(t.Text(dir, id), h);
          SearchedNothing(LAST_CHUNK);
        } else {
          HeadIsFramed(text, h);
          MessageReadFrames(s, dir);
        }
      case NoBody =>
        HeadIsFramed(text, h);
        MessageReadFrames(s, dir);
    } else {
      SameFrames(s, t);
    }
  }

  lemma HeaderReadFrames(s: State, dir: Dir, ec: ErrorCode, headerLen: nat, verdict: Verdict)
    requires Ready(s, ReadStage(dir)) && Frames(s) && headerLen <= |s.Text(dir, |s.messages| - 1)|
    requires ec == Success ==> HeaderEnd(s.Text(dir, |s.messages| - 1)) == Some(headerLen) && HeadIs(s, dir)
    ensures FrameInv(HeaderRead(s, dir, |s.messages| - 1, |s.messages|, ec, headerLen, verdict))
  {
    hide ReadBody, ParseField, HeaderEnd, Frames;
    var text := s.Text(dir, |s.messages| - 1);
    SameFrames(s, s);
    SameFrames(s, Close(s));
    SameFrames(s, Throw(s));
    if ec == Success {
      if dir.Request? {
        var parsed := ParseField(text, "host");
        if parsed.Value? {
          SameFrames(s, SetHost(s, parsed.text));
          ReadBodyFrames(SetHost(s, parsed.text), dir, headerLen);
        }
      } else {
        ReadBodyFrames(s, dir, headerLen);
      }
    }
  }

  lemma BodyReadFrames(s: State, dir: Dir, body: string, ec: ErrorCode)
    requires Ready(s, ReadStage(dir)) && Frames(s) && HeadIs(s, dir)
    requires var text := s.Text(dir, |s.messages| - 1); ec == Success ==> Framed(text + body, |text|)
    ensures FrameInv(BodyRead(s, dir, |s.messages| - 1, body, ec))
  {
    hide MessageRead, Framed, Frames;
    var t := Append(s, dir, |s.messages| - 1, body);
    AppendFrames(s, dir, body);
    if ec == Success {
      MessageReadFrames(t, dir);
    }
    SameFrames(t, Throw(t));
  }

  lemma MessageWrittenFrames(s: State, dir: Dir, ec: ErrorCode)
    requires Ready(s, ReadStage(dir) + 1) && Frames(s)
    ensures FrameInv(MessageWritten(s, dir, |s.messages| - 1, ec))
  {
    hide Framed, Frames, Base, FramedAt, Searched;
    var t, n := MessageWritten(s, dir, |s.messages| - 1, ec), |s.messages| - 1;
    SearchedNothing(HEADER_END);
    WrittenFrames(s, t, dir);
    if dir.Reply? {
      AllHeads(s);
    } else {
      NoReplyHead(s);
    }
  }

  /** After a write the messages are the same, or there is a new one. */
  lemma WrittenFrames(s: State, t: State, dir: Dir)
    requires Ready(s, ReadStage(dir) + 1) && Frames(s)
    requires t.log.requestHeads == s.log.requestHeads && t.log.replyHeads == s.log.replyHeads
    requires t.log.marks == s.log.marks || t.log.marks == s.log.marks + [Mark(ReadStage(dir) + 1, |s.messages| - 1)]
    requires if t.messages == s.messages then true
             else t.messages == s.messages + [Exchange("", "")] && dir.Reply? && t.log.marks != s.log.marks
    ensures Frames(t)
  {
    hide Framed;
    forall i: nat, d | i < |t.messages| && ReadDone(t, i, d) ensures FramedAt(t, i, d) {
      assert ReadDone(s, i, d) && t.Text(d, i) == s.Text(d, i) && FramedAt(s, i, d);
    }
    if dir.Reply? {
      AllHeads(s);
    }
  }

  lemma NoReplyHead(s: State)
    requires Frames(s) && Stage(s) <= 1
    ensures s.messages != [] && |s.log.replyHeads| == |s.messages| - 1 && s.messages[|s.messages| - 1].reply == ""
  {
  }

  /** When the reply has been read, both headers of the last exchange are known. */
  lemma AllHeads(s: State)
    requires Ready(s, 3) && Frames(s)
    ensures |s.log.requestHeads| == |s.messages| && |s.log.replyHeads| == |s.messages|
  {
    hide Framed;
    var n := |s.messages| - 1;
    assert ReadDone(s, n, Request) && ReadDone(s, n, Reply);
    assert FramedAt(s, n, Request) && FramedAt(s, n, Reply);
    assert n < |s.log.Heads(Request)| && n < |s.log.Heads(Reply)|;
  }

  // ---- The steps ----

  lemma HeadedFrames(s: State, dir: Dir, n: nat)
    requires Base(s) && Frames(s) && Stage(s) == ReadStage(dir) && |s.log.Heads(dir)| == |s.messages| - 1
    ensures Frames(Headed(s, dir, n))
  {
    hide Framed;
    var t := Headed(s, dir, n);
    forall i: nat, d | i < |t.messages| && ReadDone(t, i, d) ensures FramedAt(t, i, d) {
      assert ReadDone(s, i, d) && FramedAt(s, i, d);
    }
  }

  lemma HeaderReceivedFrames(s: State, chunk: string)
    requires Shape(s) && FrameInv(s) && s.pending != [] && s.pending[0].ReadHeader?
    ensures Frames(HeaderReceived(s, 0, chunk)) && Frames(HeaderFinished(s, 0, chunk))
    ensures HeadIs(HeaderFinished(s, 0, chunk), s.pending[0].dir)
    ensures |HeaderReceived(s, 0, chunk).log.Heads(s.pending[0].dir)| == |s.messages| - 1
  {
    hide Searched, FramedAt, Frames;
    var op := s.pending[0];
    var r, t := Receive(s, op.dir, chunk), HeaderReceived(s, 0, chunk);
    SameFrames(s, r);
    AppendFrames(r, op.dir, chunk);
    HeadedFrames(t, op.dir, |t.Text(op.dir, op.id)|);
    SameFrames(Headed(t, op.dir, |t.Text(op.dir, op.id)|), HeaderFinished(s, 0, chunk));
  }

  lemma HeaderArrivedFrames(s: State, chunk: string, verdict: Verdict)
    requires Shape(s) && FrameInv(s) && s.pending != [] && s.pending[0].ReadHeader?
    ensures FrameInv(HeaderArrived(s, 0, chunk, verdict))
  {
    hide PartialSearch, HeaderRead, HeaderReceived, HeaderFinished, Find, Searched, Frames, HeadIs, Base;
    HeaderReceivedShape(s, chunk);
    HeaderReceivedFrames(s, chunk);
    var op, t := s.pending[0], HeaderReceived(s, 0, chunk);
    var scan := PartialSearch(t.Text(op.dir, op.id), HEADER_END, op.pos);
    ResumedScanIsFullSearch(s.Text(op.dir, op.id), chunk, HEADER_END, op.pos);
    if scan.full {
      HeaderReadFrames(HeaderFinished(s, 0, chunk), op.dir, Success, scan.pos + |HEADER_END|, verdict);
    } else {
      SameFrames(t, HeaderArrived(s, 0, chunk, verdict));
    }
  }

  lemma CountedArrivedFrames(s: State, chunk: string)
    requires Shape(s) && FrameInv(s) && s.pending != [] && s.pending[0].ReadCounted?
    requires |s.pending[0].body| + |chunk| <= s.pending[0].limit
    ensures FrameInv(CountedArrived(s, 0, chunk))
  {
    hide Frames, BodyRead, Counting, Framed;
    var op, text := s.pending[0], s.Text(s.pending[0].dir, |s.messages| - 1);
    var body := op.body + chunk;
    var t := Finish(Receive(s, op.dir, chunk), 0);
    if |body| == op.limit {
      var h, length :| Counting(text, op.limit, h, length);
      CountedIsFramed(text, op.limit, h, length, body);
      FinishReady(Receive(s, op.dir, chunk), 0);
      SameFrames(s, t);
      BodyReadFrames(t, op.dir, body, Success);
    } else {
      var h, length :| Counting(text, op.limit, h, length);
      assert Counting(CountedArrived(s, 0, chunk).Text(op.dir, op.id), op.limit, h, length);
      SameFrames(s, CountedArrived(s, 0, chunk));
    }
  }

  lemma ChunksArrivedFrames(s: State, chunk: string)
    requires Shape(s) && FrameInv(s) && s.pending != [] && s.pending[0].ReadChunks?
    ensures FrameInv(ChunksArrived(s, 0, chunk))
  {
    hide Frames, BodyRead, Chunking, Framed, PartialSearch, Searched, Find;
    var op, text := s.pending[0], s.Text(s.pending[0].dir, |s.messages| - 1);
    var body := op.body + chunk;
    var t := Finish(Receive(s, op.dir, chunk), 0);
    ResumedScanIsFullSearch(op.body, chunk, LAST_CHUNK, op.pos);
    var scan := PartialSearch(body, LAST_CHUNK, op.pos);
    if scan.full {
      var h :| Chunking(text, h);
      ChunkedIsFramed(text, h, body);
      FinishReady(Receive(s, op.dir, chunk), 0);
      SameFrames(s, t);
      BodyReadFrames(t, op.dir, body, Success);
    } else {
      var h :| Chunking(text, h);
      assert Chunking(ChunksArrived(s, 0, chunk).Text(op.dir, op.id), h);
      SameFrames(s, ChunksArrived(s, 0, chunk));
    }
  }

  lemma AcceptedFrames(s: State, count: nat)
    requires Shape(s) && FrameInv(s) && Enabled(s, Accepted(0, count))
    ensures FrameInv(WriteAccepted(s, 0, count))
  {
    hide Frames, MessageWritten;
    var op := s.pending[0];
    var d := Deliver(s, op.dir, op.data[op.sent..op.sent + count]);
    FinishReady(d, 0);
    SameFrames(s, Finish(d, 0));
    SameFrames(s, d.(pending := []));
    if op.sent + count == |op.data| {
      MessageWrittenFrames(Finish(d, 0), op.dir, Success);
    } else {
      SameFrames(s, WriteAccepted(s, 0, count));
    }
  }

  lemma BrokenFrames(s: State, ec: ErrorCode, verdict: Verdict)
    requires Shape(s) && FrameInv(s) && Enabled(s, Broken(0, ec, verdict))
    ensures FrameInv(OpBroken(s, 0, ec, verdict))
  {
    hide HeaderRead, BodyRead, MessageWritten, Frames, Framed, HeaderEnd, Counting, Chunking, Searched;
    FinishReady(s, 0);
    var t := Finish(s, 0);
    SameFrames(s, t);
    match s.pending[0]
    case ReadHeader(dir, _, _, _) => HeaderReadFrames(t, dir, ec, 0, verdict);
    case ReadCounted(dir, _, _, body, _) => BodyReadFrames(t, dir, body, ec);
    case ReadChunks(dir, _, _, body, _) => BodyReadFrames(t, dir, body, ec);
    case Write(dir, _, _, _, _) => MessageWrittenFrames(t, dir, ec);
  }

  lemma SameFrameOp(s: State, t: State, op: Op)
    requires t.messages == s.messages && FrameOp(s, op)
    requires t.log.requestHeads == s.log.requestHeads && t.log.replyHeads == s.log.replyHeads
    ensures FrameOp(t, op)
  {
    hide Searched, Counting, Chunking;
    match op
    case ReadCounted(dir, id, _, body, limit) =>
      var h, length :| Counting(s.Text(dir, id), limit, h, length);
      assert Counting(t.Text(dir, id), limit, h, length);
    case ReadChunks(dir, id, _, _, _) =>
      var h :| Chunking(s.Text(dir, id), h);
      assert Chunking(t.Text(dir, id), h);
    case _ =>
  }

  lemma NotRead(s: State)
    requires s.pending == [] || s.pending[0].Connect? || s.pending[0].Write?
    ensures s.pending != [] ==> FrameOp(s, s.pending[0])
  {
  }

  lemma OtherFrames(s: State, e: Event)
    requires Shape(s) && FrameInv(s) && Enabled(s, e)
    requires e.Resolved? || e.Connected? || e.TimerDone?
    ensures FrameInv(Step(s, e))
  {
    hide Step, Enabled, Shape, Frames, FrameOp, Ready;
    if e.TimerDone? {
      TimerKeeps(s, e.ec);
      SameFrames(s, Step(s, e));
      if s.pending != [] {
        SameFrameOp(s, Step(s, e), s.pending[0]);
      }
    } else {
      ConnectingKeeps(s, e);
      SameFrames(s, Step(s, e));
      NotRead(Step(s, e));
    }
  }

  lemma StepFrames(s: State, e: Event)
    requires Shape(s) && FrameInv(s) && Enabled(s, e)
    ensures FrameInv(Step(s, e))
  {
    hide HeaderArrived, CountedArrived, ChunksArrived, WriteAccepted, OpBroken;
    hide ServerResolved, ServerConnected, HandleWait;
    hide Base, Holds, FrameInv;
    match e
    case Arrived(k, chunk, verdict) =>
      match s.pending[k] {
        case ReadHeader(_, _, _, _) => HeaderArrivedFrames(s, chunk, verdict);
        case ReadCounted(_, _, _, _, _) => CountedArrivedFrames(s, chunk);
        case ReadChunks(_, _, _, _, _) => ChunksArrivedFrames(s, chunk);
      }
    case Accepted(_, count) => AcceptedFrames(s, count);
    case Broken(_, ec, verdict) => BrokenFrames(s, ec, verdict);
    case _ => OtherFrames(s, e);
  }

  lemma ReachableFrames(s: State)
    requires Reachable(s)
    ensures Shape(s) && FrameInv(s)
  {
    hide Reachable, Start, Fresh, Step, Enabled, Shape, FrameInv;
    FreshShape();
    FreshFrames();
    forall t, e | Shape(t) && FrameInv(t) && Enabled(t, e) ensures Shape(Step(t, e)) && FrameInv(Step(t, e)) {
      StepShape(t, e);
      StepFrames(t, e);
    }
    ReachableInduction(t => Shape(t) && FrameInv(t), s);
  }

  // ---- What it says ----

  /** Every message that was read to its end is framed by its own header and by what
      had arrived with it. */
  lemma CompletedMessagesAreFramed(s: State, i: nat, dir: Dir)
    requires Reachable(s) && i < |s.messages| && ReadDone(s, i, dir)
    ensures i < |s.log.Heads(dir)| && Framed(s.Text(dir, i), s.log.Heads(dir)[i])
  {
    hide Framed, Reachable;
    ReachableFrames(s);
    assert FramedAt(s, i, dir);
  }

  /** A completed message with a content length is exactly its header and that many
      bytes, as long as less than 2^64 bytes were read; in particular no more than
      the declared length came along with the header. */
  lemma CountedMessageLength(message: string, head: nat, h: nat)
    requires Framed(message, head) && HeaderEnd(message) == Some(h) && IdentifyBody(message[..h]) == ContentLength
    requires |message| < SIZE_MOD
    ensures Declared(message[..h]).Some? && |message| == h + Declared(message[..h]).value
    ensures head - h <= Declared(message[..h]).value
  {
    hide Find, HeaderEnd, IdentifyBody, ParseField, LeadingNumber;
    var length := Declared(message[..h]).value;
    StoulFits(match ParseField(message[..h], "content-length") case Value(v) => v case _ => "");
    assert |message| - h - length < SIZE_MOD && length - (|message| - h) < SIZE_MOD;
    SmallMultiple(|message| - h - length);
  }

  lemma StoulFits(s: string)
    ensures Stoul(s).Some? ==> Stoul(s).value < SIZE_MOD
  {
  }

  lemma SmallMultiple(x: int)
    requires x < SIZE_MOD && -x < SIZE_MOD && x % SIZE_MOD == 0
    ensures x == 0
  {
  }

  /** When an `async_read` for a body ends. With no more surplus than declared,
      it ends with the arrival that makes the message exactly as long as declared.
      With more, the room wraps to almost 2^64 and the message does not complete:
      the read goes on until the peer closes or fails. */
  lemma CountedReadEnds(s: State, chunk: string, verdict: Verdict, h: nat, length: nat)
    requires Reachable(s) && s.pending != [] && s.pending[0].ReadCounted?
    requires Enabled(s, Arrived(0, chunk, verdict))
    requires var op := s.pending[0];
             Counting(s.Text(op.dir, op.id), op.limit, h, length) &&
             |s.Text(op.dir, op.id)| + |op.body| + |chunk| < SIZE_MOD
    ensures var op, text := s.pending[0], s.Text(s.pending[0].dir, s.pending[0].id);
            var completed := Step(s, Arrived(0, chunk, verdict)).log.completed > s.log.completed;
            && (|text| - h <= length ==> (completed <==> |text| + |op.body| + |chunk| == h + length))
            && (|text| - h > length ==> !completed)
  {
    hide Reachable, Find, HeaderEnd, IdentifyBody, ParseField, BodyRead, Stoul;
    var op := s.pending[0];
    var text := s.Text(op.dir, op.id);
    CountingParts(text, op.limit, h, length);
    StoulFits(match ParseField(text[..h], "content-length") case Value(v) => v case _ => "");
    RemainingIs(length, |text|, h);
    BodyReadCompleted(Finish(Receive(s, op.dir, chunk), 0), op.dir, op.id, op.body + chunk);
  }

  lemma RemainingIs(length: nat, plusLen: nat, h: nat)
    requires h <= plusLen < SIZE_MOD && length < SIZE_MOD
    ensures Remaining(length, plusLen, h) ==
            if plusLen - h <= length then length - (plusLen - h) else SIZE_MOD - (plusLen - h - length)
  {
    if plusLen - h > length {
      var short := plusLen - h - length;
      assert (-short) % SIZE_MOD == SIZE_MOD - short;
    }
  }

  lemma BodyReadCompleted(s: State, dir: Dir, id: nat, body: string)
    requires id < |s.messages|
    ensures BodyRead(s, dir, id, body, Success).log.completed == s.log.completed
  {
  }

  /** When an `async_read_until` ends: with the arrival after which its own buffer
      contains the delimiter, however the bytes were cut before. For a header
      that buffer is the message; for a chunked body it starts empty after the
      header read. */
  lemma DelimitedReadEnds(s: State, chunk: string, verdict: Verdict)
    requires Reachable(s) && s.pending != [] && Enabled(s, Arrived(0, chunk, verdict))
    requires s.pending[0].ReadHeader? || s.pending[0].ReadChunks?
    ensures var op := s.pending[0];
            var (buffer, pat) := if op.ReadHeader? then (s.Text(op.dir, op.id), HEADER_END) else (op.body, LAST_CHUNK);
            var completed := Step(s, Arrived(0, chunk, verdict)).log.completed > s.log.completed;
            completed <==> Find(buffer + chunk, pat, 0).Some?
  {
    hide Reachable, Find, HeaderRead, BodyRead, PartialSearch, Searched;
    ReachableFrames(s);
    var op := s.pending[0];
    if op.ReadHeader? {
      ResumedScanIsFullSearch(s.Text(op.dir, op.id), chunk, HEADER_END, op.pos);
      var scan := PartialSearch(s.Text(op.dir, op.id) + chunk, HEADER_END, op.pos);
      if scan.full {
        HeaderReadCompleted(HeaderFinished(s, 0, chunk), op.dir, op.id, op.epoch, scan.pos + |HEADER_END|, verdict);
      }
    } else {
      ResumedScanIsFullSearch(op.body, chunk, LAST_CHUNK, op.pos);
      BodyReadCompleted(Finish(Receive(s, op.dir, chunk), 0), op.dir, op.id, op.body + chunk);
    }
  }

  lemma HeaderReadCompleted(s: State, dir: Dir, id: nat, epoch: nat, headerLen: nat, verdict: Verdict)
    requires id < |s.messages| && headerLen <= |s.Text(dir, id)|
    ensures HeaderRead(s, dir, id, epoch, Success, headerLen, verdict).log.completed == s.log.completed
  {
    hide ParseField, IdentifyBody, Declared, Find;
  }
}
