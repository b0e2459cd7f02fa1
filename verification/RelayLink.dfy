/** Which server a request is written to. */
module RelayLink {
  import opened Search
  import opened Http
  import opened Relay
  import opened RelayShape
  import opened RelayFraming

  /** `host` is what `parse_field` made of the request when its header had arrived. */
  ghost predicate HostOf(request: string, host: string) {
    exists seen: string ::
      seen <= request && Find(seen, HEADER_END, 0).Some? && ParseField(seen, "host") == Value(host)
  }

  /** Each request written so far went over a connection to an endpoint of its own host,
      and each reply read so far came over the connection of its request. */
  ghost predicate Routed(s: State) {
    && |s.log.answered| <= |s.log.via| <= |s.log.hosts| <= |s.messages|
    && (forall i :: 0 <= i < |s.log.hosts| ==> HostOf(s.messages[i].request, s.log.hosts[i]))
    && (forall i :: 0 <= i < |s.log.via| ==>
          s.log.via[i].Some? && s.log.via[i].value.host == s.log.hosts[i] && s.log.via[i].value.dial < s.dials)
    && (forall i :: 0 <= i < |s.log.answered| ==> s.log.answered[i] == s.log.via[i])
    && (s.peer.Some? ==> s.peer.value.dial < s.dials)
  }

  /** How many hosts are known, requests written and replies read for the last message. */
  ghost predicate Counted(s: State, hosts: nat, via: nat, answered: nat) {
    && s.messages != []
    && |s.log.hosts| == |s.messages| - 1 + hosts
    && |s.log.via| == |s.messages| - 1 + via
    && |s.log.answered| == |s.messages| - 1 + answered
  }

  ghost predicate HostKnown(s: State) {
    |s.log.hosts| == |s.messages| && s.messages != [] && s.log.hosts[|s.messages| - 1] == s.currHost
  }

  /** What makes the fast path of `resolve_server` sound. */
  ghost predicate Reusable(s: State) {
    s.serverOpen ==> s.peer.Some? && s.peer.value.host == s.prevHost
  }

  /** The server socket is the connection the last request was written to. */
  ghost predicate OnLine(s: State) {
    && s.peer.Some? && s.peer.value.host == s.currHost
    && |s.log.via| == |s.messages| && s.messages != [] && s.log.via[|s.messages| - 1] == s.peer
  }

  ghost predicate LinkOp(s: State, op: Op) {
    match op
    case ReadHeader(Request, _, _, _) => Counted(s, 0, 0, 0) && Reusable(s)
    case ReadCounted(Request, _, _, _, _) => HostKnown(s) && Counted(s, 1, 0, 0) && Reusable(s)
    case ReadChunks(Request, _, _, _, _) => HostKnown(s) && Counted(s, 1, 0, 0) && Reusable(s)
    case Resolve(_, host) =>
      && HostKnown(s) && Counted(s, 1, 0, 0) && Reusable(s) && host == s.currHost
      && !(s.serverOpen && s.prevHost == s.currHost)
    case Connect(_, endpoints) =>
      && HostKnown(s) && Counted(s, 1, 0, 0)
      && forall i :: 0 <= i < |endpoints| ==> endpoints[i].host == s.currHost
    case Write(Reply, _, _, _, _) => HostKnown(s) && Counted(s, 1, 1, 1) && OnLine(s)
    case _ => HostKnown(s) && Counted(s, 1, 1, 0) && OnLine(s)
  }

  ghost predicate Linked(s: State) {
    && Routed(s)
    && (s.pending != [] ==> LinkOp(s, s.pending[0]))
  }

  lemma FreshLink()
    ensures Linked(Start(Fresh()))
  {
  }

  lemma SameRouted(s: State, t: State)
    requires Routed(s) && t.messages == s.messages && t.peer == s.peer && t.dials == s.dials
    requires t.log.hosts == s.log.hosts && t.log.via == s.log.via && t.log.answered == s.log.answered
    ensures Routed(t)
  {
    hide HostOf;
  }

  lemma HostOfGrows(request: string, more: string, host: string)
    requires HostOf(request, host)
    ensures HostOf(request + more, host)
  {
    hide Find, ParseField;
    var seen :| seen <= request && Find(seen, HEADER_END, 0).Some? && ParseField(seen, "host") == Value(host);
    assert seen <= request + more;
  }

  lemma AppendRouted(s: State, dir: Dir, chunk: string)
    requires Routed(s) && s.messages != []
    ensures Routed(Append(s, dir, |s.messages| - 1, chunk))
  {
    hide HostOf;
    var n := |s.messages| - 1;
    if |s.log.hosts| == n + 1 && dir.Request? {
      HostOfGrows(s.messages[n].request, chunk, s.log.hosts[n]);
    }
  }

  /** Entering `resolve_server`. */
  lemma ResolveServerLink(s: State)
    requires Routed(s) && HostKnown(s) && Counted(s, 1, 0, 0)
    requires Reusable(s) && s.pending == []
    ensures Linked(ResolveServer(s, |s.messages| - 1))
  {
    hide HostOf;
    if !(s.serverOpen && s.prevHost == s.currHost) {
      SameRouted(s, ResolveServer(s, |s.messages| - 1));
      hide Routed;
    }
  }

  /** A message has been read, or its body is to be read. */
  ghost predicate LinkReady(s: State, dir: Dir) {
    && s.messages != [] && s.pending == [] && Routed(s) && HostKnown(s)
    && if dir.Request? then Counted(s, 1, 0, 0) && Reusable(s)
       else Counted(s, 1, 1, 0) && OnLine(s)
  }

  lemma MessageReadLink(s: State, dir: Dir)
    requires LinkReady(s, dir)
    ensures Linked(MessageRead(s, dir, |s.messages| - 1))
  {
    hide HostOf, ResolveServer;
    if dir.Request? {
      ResolveServerLink(Done(s, 0, |s.messages| - 1));
    }
  }

  lemma ReadBodyLink(s: State, dir: Dir, header: string)
    requires LinkReady(s, dir)
    ensures Linked(ReadBody(s, dir, |s.messages| - 1, |s.messages|, header))
  {
    hide IdentifyBody, Declared, Find, Routed, MessageRead;
    var t := ReadBody(s, dir, |s.messages| - 1, |s.messages|, header);
    MessageReadLink(s, dir);
    if t != MessageRead(s, dir, |s.messages| - 1) {
      SameRouted(s, t);
    }
  }

  lemma SetHostLink(s: State, text: string, host: string)
    requires s.pending == [] && Routed(s) && Counted(s, 0, 0, 0) && Reusable(s)
    requires text == s.messages[|s.messages| - 1].request
    requires Find(text, HEADER_END, 0).Some? && ParseField(text, "host") == Value(host)
    ensures LinkReady(SetHost(s, host), Request)
  {
    hide Find, ParseField;
    assert HostOf(text, host);
    hide HostOf;
  }

  lemma HeaderReadLink(s: State, dir: Dir, ec: ErrorCode, headerLen: nat, verdict: Verdict)
    requires s.messages != [] && s.pending == [] && Routed(s)
    requires dir.Request? ==> Counted(s, 0, 0, 0) && Reusable(s)
    requires dir.Reply? ==> LinkReady(s, dir)
    requires headerLen <= |s.Text(dir, |s.messages| - 1)|
    requires ec == Success ==> Find(s.Text(dir, |s.messages| - 1), HEADER_END, 0).Some?
    ensures Linked(HeaderRead(s, dir, |s.messages| - 1, |s.messages|, ec, headerLen, verdict))
  {
    hide ReadBody, ParseField, Find, Routed;
    var text := s.Text(dir, |s.messages| - 1);
    SameRouted(s, Close(s));
    SameRouted(s, Throw(s));
    if dir.Request? {
      var parsed := ParseField(text, "host");
      if parsed.Value? && ec == Success {
        SetHostLink(s, text, parsed.text);
        ReadBodyLink(SetHost(s, parsed.text), dir, text[..headerLen]);
      }
    } else {
      ReadBodyLink(s, dir, text[..headerLen]);
    }
  }

  lemma BodyReadLink(s: State, dir: Dir, body: string, ec: ErrorCode)
    requires LinkReady(s, dir)
    ensures Linked(BodyRead(s, dir, |s.messages| - 1, body, ec))
  {
    hide MessageRead, Routed;
    AppendRouted(s, dir, body);
    SameRouted(Append(s, dir, |s.messages| - 1, body), Throw(Append(s, dir, |s.messages| - 1, body)));
    MessageReadLink(Append(s, dir, |s.messages| - 1, body), dir);
  }

  lemma MessageWrittenLink(s: State, dir: Dir, ec: ErrorCode)
    requires s.messages != [] && s.pending == [] && Routed(s) && HostKnown(s) && OnLine(s)
    requires Counted(s, 1, 1, if dir.Reply? then 1 else 0)
    ensures Linked(MessageWritten(s, dir, |s.messages| - 1, ec))
  {
    hide HostOf;
  }

  lemma FinishLink(s: State)
    requires Shape(s) && Linked(s) && s.pending != []
    ensures var op, t := s.pending[0], Finish(s, 0);
            && Routed(t) && t.pending == []
            && (op.ReadHeader? && op.dir.Request? ==> Counted(t, 0, 0, 0) && Reusable(t))
            && (op.ReadCounted? || op.ReadChunks? ==> LinkReady(t, op.dir))
            && (op.ReadHeader? && op.dir.Reply? ==> LinkReady(t, Reply))
            && (op.Write? ==> HostKnown(t) && OnLine(t) && Counted(t, 1, 1, if op.dir.Reply? then 1 else 0))
            && (op.Resolve? || op.Connect? ==> HostKnown(t) && Counted(t, 1, 0, 0))
  {
    hide HostOf;
  }

  /** Progress of an operation changes no link. */
  lemma ProgressLink(s: State, t: State)
    requires Linked(s) && |s.pending| == |t.pending| == 1
    requires t == s.(pending := t.pending, log := t.log)
    requires t.log.hosts == s.log.hosts && t.log.via == s.log.via && t.log.answered == s.log.answered
    requires match (s.pending[0], t.pending[0])
             case (ReadHeader(d, _, _, _), ReadHeader(d', _, _, _)) => d == d'
             case (ReadCounted(d, _, _, _, _), ReadCounted(d', _, _, _, _)) => d == d'
             case (ReadChunks(d, _, _, _, _), ReadChunks(d', _, _, _, _)) => d == d'
             case _ => false
    ensures Linked(t)
  {
    hide Routed;
    SameRouted(s, t);
  }

  lemma HeaderReceivedLink(s: State, chunk: string)
    requires Shape(s) && Linked(s) && s.pending != [] && s.pending[0].ReadHeader?
    ensures Linked(HeaderReceived(s, 0, chunk)) && Routed(HeaderFinished(s, 0, chunk))
    ensures s.pending[0].dir.Request? ==>
              Counted(HeaderFinished(s, 0, chunk), 0, 0, 0) && Reusable(HeaderFinished(s, 0, chunk))
    ensures s.pending[0].dir.Reply? ==> LinkReady(HeaderFinished(s, 0, chunk), Reply)
  {
    hide Routed, Base;
    var op := s.pending[0];
    var r, t := Receive(s, op.dir, chunk), HeaderReceived(s, 0, chunk);
    SameRouted(s, r);
    AppendRouted(r, op.dir, chunk);
    SameRouted(t, HeaderFinished(s, 0, chunk));
  }

  lemma HeaderArrivedLink(s: State, chunk: string, verdict: Verdict)
    requires Shape(s) && Linked(s) && s.pending != [] && s.pending[0].ReadHeader?
    requires Searched(s.Text(s.pending[0].dir, s.pending[0].id), HEADER_END, s.pending[0].pos)
    ensures Linked(HeaderArrived(s, 0, chunk, verdict))
  {
    hide PartialSearch, HeaderRead, HeaderReceived, HeaderFinished, Find, Searched, Linked, Routed, LinkReady, Base;
    HeaderReceivedShape(s, chunk);
    HeaderReceivedLink(s, chunk);
    var op, t := s.pending[0], HeaderReceived(s, 0, chunk);
    var scan := PartialSearch(t.Text(op.dir, op.id), HEADER_END, op.pos);
    ResumedScanIsFullSearch(s.Text(op.dir, op.id), chunk, HEADER_END, op.pos);
    if scan.full {
      HeaderReadLink(HeaderFinished(s, 0, chunk), op.dir, Success, scan.pos + |HEADER_END|, verdict);
    } else {
      ProgressLink(t, HeaderArrived(s, 0, chunk, verdict));
    }
  }

  lemma BodyEndsLink(s: State, chunk: string)
    requires Shape(s) && Linked(s) && s.pending != []
    requires s.pending[0].ReadCounted? || s.pending[0].ReadChunks?
    ensures var op := s.pending[0];
            Linked(BodyRead(Finish(Receive(s, op.dir, chunk), 0), op.dir, op.id, op.body + chunk, Success))
  {
    hide BodyRead, HostOf, Linked, Base;
    var op := s.pending[0];
    FinishLink(s);
    BodyReadLink(Finish(Receive(s, op.dir, chunk), 0), op.dir, op.body + chunk, Success);
  }

  lemma BodyArrivedLink(s: State, chunk: string)
    requires Shape(s) && Linked(s) && s.pending != []
    ensures s.pending[0].ReadCounted? ==> Linked(CountedArrived(s, 0, chunk))
    ensures s.pending[0].ReadChunks? ==> Linked(ChunksArrived(s, 0, chunk))
  {
    hide BodyRead, PartialSearch, Linked, Base;
    var op := s.pending[0];
    if op.ReadCounted? {
      BodyEndsLink(s, chunk);
      if |op.body + chunk| != op.limit {
        ProgressLink(s, CountedArrived(s, 0, chunk));
      }
    } else if op.ReadChunks? {
      BodyEndsLink(s, chunk);
      if !PartialSearch(op.body + chunk, LAST_CHUNK, op.pos).full {
        ProgressLink(s, ChunksArrived(s, 0, chunk));
      }
    }
  }

  lemma WriteLink(s: State, count: nat)
    requires Shape(s) && Linked(s) && s.pending != [] && s.pending[0].Write?
    requires s.pending[0].sent + count <= |s.pending[0].data|
    ensures Linked(WriteAccepted(s, 0, count))
  {
    hide Routed, Base, MessageWritten;
    FinishLink(s);
    var op := s.pending[0];
    var t := Deliver(s, op.dir, op.data[op.sent..op.sent + count]);
    SameRouted(s, t);
    SameRouted(s, Finish(t, 0));
    if op.sent + count == |op.data| {
      MessageWrittenLink(Finish(t, 0), op.dir, Success);
    } else {
      SameRouted(s, WriteAccepted(s, 0, count));
    }
  }

  lemma BrokenLink(s: State, ec: ErrorCode, verdict: Verdict)
    requires Shape(s) && Linked(s) && Enabled(s, Broken(0, ec, verdict))
    ensures Linked(OpBroken(s, 0, ec, verdict))
  {
    hide HeaderRead, BodyRead, MessageWritten, HostOf, Linked, Routed, Base;
    FinishLink(s);
    var op, t := s.pending[0], Finish(s, 0);
    match op
    case ReadHeader(dir, _, _, _) => HeaderReadLink(t, dir, ec, 0, verdict);
    case ReadCounted(dir, _, _, body, _) => BodyReadLink(t, dir, body, ec);
    case ReadChunks(dir, _, _, body, _) => BodyReadLink(t, dir, body, ec);
    case Write(dir, _, _, _, _) => MessageWrittenLink(t, dir, ec);
  }

  lemma ServerResolvedLink(s: State, id: nat, ec: ErrorCode, endpoints: seq<Endpoint>, open: bool)
    requires s.pending == [] && Routed(s) && HostKnown(s) && Counted(s, 1, 0, 0)
    requires ec == Success ==> forall i :: 0 <= i < |endpoints| ==> endpoints[i].host == s.currHost
    ensures Linked(ServerResolved(s, id, ec, endpoints, open))
  {
    hide HostOf;
  }

  lemma ServerConnectedLink(s: State, ec: ErrorCode, endpoint: Endpoint, open: bool)
    requires s.pending == [] && Routed(s) && HostKnown(s) && Counted(s, 1, 0, 0)
    requires ec == Success ==> endpoint.host == s.currHost
    ensures Linked(ServerConnected(s, |s.messages| - 1, ec, endpoint, open))
  {
    hide HostOf;
  }

  lemma ResolvedLink(s: State, e: Event)
    requires Shape(s) && Linked(s) && Enabled(s, e) && e.Resolved?
    ensures Linked(Step(s, e))
  {
    hide Routed, Base, Fits, ServerResolved;
    FinishLink(s);
    ServerResolvedLink(Finish(s, 0), s.pending[0].id, e.ec, e.endpoints, e.open);
  }

  lemma ConnectedLink(s: State, e: Event)
    requires Shape(s) && Linked(s) && Enabled(s, e) && e.Connected?
    ensures Linked(Step(s, e))
  {
    hide Routed, Base, Fits, ServerConnected;
    FinishLink(s);
    ServerConnectedLink(Finish(s, 0), e.ec, e.endpoint, e.open);
  }

  lemma TimerLink(s: State, ec: ErrorCode)
    requires Linked(s) && Enabled(s, TimerDone(ec))
    ensures Linked(Step(s, TimerDone(ec)))
  {
    hide Routed, Fits;
    SameRouted(s, Step(s, TimerDone(ec)));
  }

  lemma StepLink(s: State, e: Event)
    requires Shape(s) && FrameInv(s) && Linked(s) && Enabled(s, e)
    ensures Linked(Step(s, e))
  {
    hide HeaderArrived, CountedArrived, ChunksArrived, WriteAccepted, OpBroken;
    hide ServerResolved, ServerConnected, HandleWait;
    hide Base, Holds, Linked, Frames, Searched;
    match e
    case Arrived(k, chunk, verdict) =>
      if s.pending[k].ReadHeader? {
        HeaderArrivedLink(s, chunk, verdict);
      } else {
        BodyArrivedLink(s, chunk);
      }
    case Accepted(_, count) => WriteLink(s, count);
    case Broken(_, ec, verdict) => BrokenLink(s, ec, verdict);
    case Resolved(_, _, _, _) => ResolvedLink(s, e);
    case Connected(_, _, _, _) => ConnectedLink(s, e);
    case TimerDone(ec) => TimerLink(s, ec);
  }

  lemma ReachableLinked(s: State)
    requires Reachable(s)
    ensures Linked(s)
  {
    hide Reachable, Start, Fresh, Step, Enabled, Shape, FrameInv, Linked;
    FreshShape();
    FreshFrames();
    FreshLink();
    forall t, e | Shape(t) && FrameInv(t) && Linked(t) && Enabled(t, e)
      ensures Shape(Step(t, e)) && FrameInv(Step(t, e)) && Linked(Step(t, e))
    {
      StepShape(t, e);
      StepFrames(t, e);
      StepLink(t, e);
    }
    ReachableInduction(t => Shape(t) && FrameInv(t) && Linked(t), s);
  }

  // ---- What it says ----

  /** Connection reuse is as good as reconnecting for every request: in every
      reachable state, each request written so far went over a connection that
      was established to an endpoint resolved from that request's own host. */
  lemma RequestsReachTheirHost(s: State, i: nat)
    requires Reachable(s) && i < |s.log.via|
    ensures i < |s.log.hosts| && i < |s.messages|
    ensures s.log.via[i].Some? && s.log.via[i].value.host == s.log.hosts[i]
    ensures HostOf(s.messages[i].request, s.log.hosts[i])
  {
    hide HostOf, Reachable;
    ReachableLinked(s);
  }

  /** And it is used wherever it can be: while a host is being resolved, the open
      connection, if there is one, leads to another host. */
  lemma ReconnectsOnlyWhenNeeded(s: State)
    requires Reachable(s) && s.pending != [] && s.pending[0].Resolve?
    ensures s.pending[0].host == s.currHost
    ensures s.serverOpen ==> s.peer.Some? && s.peer.value.host != s.currHost
  {
    hide Reachable, Routed;
    ReachableLinked(s);
  }

  /** A reply is read over the very connection its request was written to: so it is
      for every reply read so far, and the server socket stays that connection from
      the moment the request is being written until the reply has been written. */
  lemma RepliesComeFromTheirServer(s: State)
    requires Reachable(s)
    ensures |s.log.answered| <= |s.log.via|
    ensures forall i :: 0 <= i < |s.log.answered| ==> s.log.answered[i] == s.log.via[i] && s.log.via[i].Some?
    ensures s.pending != [] && (StageOf(s.pending[0]) >= 2 || s.pending[0].Write?) ==>
              s.pending[0].id < |s.log.via| && s.peer == s.log.via[s.pending[0].id]
  {
    hide Reachable, HostOf;
    ReachableShape(s);
    ReachableLinked(s);
  }

  /** The numbers of connections tell them apart, so the pairing above is one of
      connections and not only of addresses. */
  lemma ConnectionsAreNew(s: State, e: Event)
    requires Reachable(s) && Enabled(s, e) && e.Connected? && e.ec == Success
    ensures Step(s, e).peer.Some? && Step(s, e).peer !in s.log.via
  {
    hide Reachable, HostOf;
    ReachableLinked(s);
  }

  /** The moment a request gets its host: when its header is complete, exactly if the
      session has not stopped, the header is accepted, and a host can be read. */
  lemma RoutedExactly(s: State, chunk: string, verdict: Verdict)
    requires Reachable(s) && Enabled(s, Arrived(0, chunk, verdict))
    requires s.pending[0].ReadHeader? && s.pending[0].dir.Request?
    ensures var t, request := Step(s, Arrived(0, chunk, verdict)), s.Text(Request, |s.messages| - 1) + chunk;
            && s.pending[0].id == |s.messages| - 1
            && (|t.log.hosts| > |s.log.hosts| <==>
                  && Find(request, HEADER_END, 0).Some? && !s.stopped && verdict == Proceed
                  && ParseField(request, "host").Value?)
            && (|t.log.hosts| == |s.log.hosts| && Find(request, HEADER_END, 0).Some? ==> t.pending == [])
  {
    hide Reachable, PartialSearch, Find, ParseField, ReadBody, Searched, Frames, Base, HeaderReceived, HeaderFinished;
    ReachableFrames(s);
    HeaderReceivedKeeps(s, chunk);
    var op := s.pending[0];
    ResumedScanIsFullSearch(s.Text(Request, op.id), chunk, HEADER_END, op.pos);
    var u := HeaderFinished(s, 0, chunk);
    var request := u.Text(Request, op.id);
    var scan := PartialSearch(request, HEADER_END, op.pos);
    var host := ParseField(request, "host");
    if scan.full && host.Value? {
      ReadBodyHosts(SetHost(u, host.text), Request, op.id, op.epoch, request[..scan.pos + |HEADER_END|]);
    }
  }

  lemma ReadBodyHosts(s: State, dir: Dir, id: nat, epoch: nat, header: string)
    requires id < |s.messages|
    ensures ReadBody(s, dir, id, epoch, header).log.hosts == s.log.hosts
  {
    hide IdentifyBody, Declared, Find;
  }

  /** If the field stands inside the header, the host a request was routed by is the
      one `parse_field` reads in the complete request. */
  lemma RoutedByOwnField(request: string, host: string)
    requires HostOf(request, host) && |request| < NPOS
    requires var h := HeaderEnd(request);
             h.Some? && h.value <= |request| &&
             var low := Lower(request[..h.value]);
             Find(low, "host", 0).Some? && Find(low, "host", 0).value + 5 <= |low| &&
             Find(low[Find(low, "host", 0).value + 5..], CRLF, 0).Some?
    ensures ParseField(request, "host") == Value(host)
  {
    hide Find, ParseField, Lower;
    var seen: string :| seen <= request && Find(seen, HEADER_END, 0).Some? && ParseField(seen, "host") == Value(host);
    var more := request[|seen|..];
    assert request == seen + more;
    FindAppend(seen, more, HEADER_END, 0);
    var h := HeaderEnd(request).value;
    assert HeaderEnd(seen) == Some(h);
    HeaderEndGrows(seen, more);
    var header := request[..h];
    assert header == seen[..h];
    assert Lower("host") == "host" by {
      LowerHost();
    }
    assert seen == header + seen[h..] && request == header + request[h..];
    ParseFieldStable(header, seen[h..], "host");
    ParseFieldStable(header, request[h..], "host");
  }

  lemma LowerHost()
    ensures Lower("host") == "host"
  {
  }
}
