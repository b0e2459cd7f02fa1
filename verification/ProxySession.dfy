/** The `Socket` class of Socket.cpp, with its handlers as methods that update its
    fields. Each is proved to do what the step machine of `Relay` says, so the
    theorems about reachable states are theorems about these objects. */
module ProxySession {
  import opened Search
  import opened Http
  import opened Relay
  import opened RelayShape
  import opened RelayFlow
  import opened RelayLink
  import opened RelayFraming
  import opened RelayProgress

  /** Request `i` was written over a connection to the host it names. */
  ghost predicate ReachedItsHost(s: State, i: nat)
    requires i < |s.log.via|
  {
    && i < |s.log.hosts| && i < |s.messages| && HostOf(s.messages[i].request, s.log.hosts[i])
    && s.log.via[i].Some? && s.log.via[i].value.host == s.log.hosts[i]
  }

  /** What a user of a session relies on: stages follow each other in order, one at a
      time; each peer gets a prefix of what the other sent, which is the messages and the
      body now being read; each request went over a connection to its own host, and its
      reply was read from that connection; and each message read to its end is framed by
      its own header. */
  ghost predicate Safe(s: State) {
    && |s.pending| <= 1 && s.timers <= 1 && s.log.started == s.log.completed + |s.pending| + s.timers
    && (forall j :: 0 <= j < |s.log.marks| ==> s.log.marks[j] == Mark(j % 4, j / 4))
    && s.messages != []
    && (forall dir ::
          && s.log.FlowOf(dir).read == Texts(s.messages, dir) + InFlight(s, dir)
          && Earlier(s, dir) <= s.log.FlowOf(dir).written <= Texts(s.messages, dir))
    && (forall i: nat :: i < |s.log.via| ==> ReachedItsHost(s, i))
    && |s.log.answered| <= |s.log.via|
    && (forall i :: 0 <= i < |s.log.answered| ==> s.log.answered[i] == s.log.via[i])
    && (forall i: nat, dir | i < |s.messages| && ReadDone(s, i, dir) ::
          i < |s.log.Heads(dir)| && Framed(s.Text(dir, i), s.log.Heads(dir)[i]))
  }

  lemma ReachableIsSafe(s: State)
    requires Reachable(s)
    ensures Safe(s)
  {
    hide Reachable, HostOf, Framed, Texts, InFlight, Earlier, IsWrite, Stage, ReadDone, StageOf;
    SingleTokenInOrder(s);
    OperationsConserved(s);
    RelayConserves(s, Request);
    forall dir
      ensures s.log.FlowOf(dir).read == Texts(s.messages, dir) + InFlight(s, dir)
      ensures Earlier(s, dir) <= s.log.FlowOf(dir).written <= Texts(s.messages, dir)
    {
      RelayConserves(s, dir);
    }
    forall i: nat | i < |s.log.via| ensures ReachedItsHost(s, i) {
      RequestsReachTheirHost(s, i);
    }
    RepliesComeFromTheirServer(s);
    forall i: nat, dir | i < |s.messages| && ReadDone(s, i, dir)
      ensures i < |s.log.Heads(dir)| && Framed(s.Text(dir, i), s.log.Heads(dir)[i])
    {
      CompletedMessagesAreFramed(s, i, dir);
    }
  }

  class Socket {
    var stopped: bool
    var failed: bool
    var prevHost: string
    var currHost: string
    var messages: seq<Exchange>
    var pending: seq<Op>
    var timers: nat
    var serverOpen: bool
    var peer: Option<Connection>
    var dials: nat
    ghost var log: History

    ghost function Abs(): State
      reads this
    {
      State(stopped, failed, prevHost, currHost, messages, pending, timers, serverOpen, peer, dials, log)
    }

    constructor ()
      ensures Abs() == Fresh()
    {
      stopped, failed := false, false;
      prevHost, currHost := "", "";
      messages, pending, timers := [], [], 0;
      serverOpen, peer, dials := false, None, 0;
      log := Fresh().log;
    }

    method Initiate(op: Op)
      modifies this`pending, this`log
      ensures Abs() == Begin(old(Abs()), op)
    {
      pending := pending + [op];
      log := log.(started := log.started + 1);
    }

    method AsyncWait()
      modifies this`timers, this`log
      ensures Abs() == WaitForTimer(old(Abs()))
    {
      timers := timers + 1;
      log := log.(started := log.started + 1);
    }

    method StartSession()
      requires Abs() == Fresh()
      modifies this
      ensures Abs() == Start(Fresh()) && Reachable(Abs()) && Safe(Abs())
      ensures timers == 1 && pending == [ReadHeader(Request, 0, 1, 0)] && messages == [Exchange("", "")]
      ensures !stopped && !failed && !serverOpen && prevHost == ""
    {
      hide Safe, Reachable;
      AsyncWait();
      GetMessageFromClient();
      ReachableStart();
      SessionStarts();
      ReachableIsSafe(Start(Fresh()));
    }

    method HandleWait(ec: ErrorCode)
      modifies this
      ensures Abs() == Relay.HandleWait(old(Abs()), ec)
    {
      if stopped {
        return;
      }
      if ec == Success {
        Close();
      } else if ec == Aborted {
        AsyncWait();
      }
    }

    method Close()
      modifies this`stopped
      ensures Abs() == Relay.Close(old(Abs()))
    {
      if stopped {
        return;
      }
      stopped := true;
    }

    method GetMessageFromClient()
      modifies this
      ensures Abs() == Relay.GetMessageFromClient(old(Abs()))
    {
      messages := messages + [Exchange("", "")];
      var id := |messages| - 1;
      Initiate(ReadHeader(Request, id, |messages|, 0));
    }

    method RequestHeaderRead(id: nat, epoch: nat, ec: ErrorCode, headerLen: nat, verdict: Verdict)
      requires id < |messages| && headerLen <= |messages[id].request|
      modifies this
      ensures Abs() == Relay.RequestHeaderRead(old(Abs()), id, epoch, ec, headerLen, verdict)
    {
      hide Relay.ReadBody, ParseField;
      if stopped {
        return;
      }
      if ec != Success {
        if ec == Aborted {
          return;
        }
        if ec == Eof && headerLen == 0 {
          Close();
          return;
        }
        failed := true;
        return;
      }
      if verdict == TooNew {
        return;
      }
      var request := messages[id].request;
      var host := ParseFieldByErasing(request, "host");
      if verdict == Throws || !host.Value? {
        failed := true;
        return;
      }
      currHost := host.text;
      log := log.(hosts := log.hosts + [currHost]);
      ReadBody(Request, id, epoch, request[..headerLen]);
    }

    method ReplyHeaderRead(id: nat, epoch: nat, ec: ErrorCode, headerLen: nat, verdict: Verdict)
      requires id < |messages| && headerLen <= |messages[id].reply|
      modifies this
      ensures Abs() == Relay.ReplyHeaderRead(old(Abs()), id, epoch, ec, headerLen, verdict)
    {
      if stopped {
        return;
      }
      if ec != Success {
        if ec == Aborted {
          return;
        }
        if ec == Eof && headerLen == 0 {
          return;
        }
        if ec == Reset {
          Close();
          return;
        }
        failed := true;
        return;
      }
      if verdict == Throws {
        failed := true;
        return;
      }
      ReadBody(Reply, id, epoch, messages[id].reply[..headerLen]);
    }

    method ReadBody(dir: Dir, id: nat, epoch: nat, header: string)
      requires id < |messages|
      modifies this
      ensures Abs() == Relay.ReadBody(old(Abs()), dir, id, epoch, header)
    {
      if stopped {
        return;
      }
      var plus := TextOf(messages[id], dir);
      match IdentifyBody(header) {
        case NoBody => MessageRead(dir, id);
        case ContentLength =>
          var value := ParseFieldByErasing(header, "content-length");
          var length := if value.Value? then Stoul(value.text) else None;
          if length.None? {
            failed := true;
          } else {
            Initiate(ReadCounted(dir, id, epoch, "", Remaining(length.value, |plus|, |header|)));
          }
        case ChunkedCoding =>
          if Find(plus, LAST_CHUNK, |header|).Some? {
            MessageRead(dir, id);
          } else {
            Initiate(ReadChunks(dir, id, epoch, "", 0));
          }
      }
    }

    /** The handler shared by the two body reads. */
    method BodyRead(dir: Dir, id: nat, body: string, ec: ErrorCode)
      requires id < |messages|
      modifies this
      ensures Abs() == Relay.BodyRead(old(Abs()), dir, id, body, ec)
    {
      messages := messages[id := AppendText(messages[id], dir, body)];
      if ec == Success {
        MessageRead(dir, id);
      } else if ec != Eof && ec != Aborted {
        failed := true;
      }
    }

    /** The callback of `read_body`. */
    method MessageRead(dir: Dir, id: nat)
      requires id < |messages|
      modifies this
      ensures Abs() == Relay.MessageRead(old(Abs()), dir, id)
    {
      log := log.(marks := log.marks + [Mark(ReadStage(dir), id)]);
      if dir.Request? {
        ResolveServer(id);
      } else {
        log := log.(answered := log.answered + [peer]);
        SendMessageToClient(id);
      }
    }

    method ResolveServer(id: nat)
      requires id < |messages|
      modifies this
      ensures Abs() == Relay.ResolveServer(old(Abs()), id)
    {
      if serverOpen && prevHost == currHost {
        SendMessageToServer(id);
        return;
      }
      Initiate(Resolve(id, currHost));
    }

    method ServerResolved(id: nat, ec: ErrorCode, endpoints: seq<Endpoint>, open: bool)
      modifies this
      ensures Abs() == Relay.ServerResolved(old(Abs()), id, ec, endpoints, open)
    {
      if stopped {
        return;
      }
      if ec != Success {
        Close();
      } else {
        ConnectToEndpoints(id, endpoints, open);
      }
    }

    method ConnectToEndpoints(id: nat, endpoints: seq<Endpoint>, open: bool)
      modifies this
      ensures Abs() == Relay.ConnectToEndpoints(old(Abs()), id, endpoints, open)
    {
      if endpoints != [] {
        serverOpen, peer := open, None;
      }
      Initiate(Connect(id, endpoints));
    }

    method ServerConnected(id: nat, ec: ErrorCode, endpoint: Endpoint, open: bool)
      requires id < |messages|
      modifies this
      ensures Abs() == Relay.ServerConnected(old(Abs()), id, ec, endpoint, open)
    {
      if ec == Success {
        serverOpen, peer := true, Some(Connection(endpoint.host, endpoint.address, dials));
        dials := dials + 1;
      } else {
        serverOpen := open;
      }
      if stopped {
        return;
      }
      if ec != Success {
        Close();
      } else {
        SendMessageToServer(id);
      }
    }

    method SendMessageToServer(id: nat)
      requires id < |messages|
      modifies this
      ensures Abs() == Relay.SendMessageToServer(old(Abs()), id)
    {
      log := log.(via := log.via + [peer]);
      Initiate(Write(Request, id, |messages|, messages[id].request, 0));
    }

    method GetMessageFromServer(id: nat)
      modifies this
      ensures Abs() == Relay.GetMessageFromServer(old(Abs()), id)
    {
      Initiate(ReadHeader(Reply, id, |messages|, 0));
    }

    method SendMessageToClient(id: nat)
      requires id < |messages|
      modifies this
      ensures Abs() == Relay.SendMessageToClient(old(Abs()), id)
    {
      Initiate(Write(Reply, id, |messages|, messages[id].reply, 0));
    }

    /** The handlers of the two `async_write`s. */
    method MessageWritten(dir: Dir, id: nat, ec: ErrorCode)
      modifies this
      ensures Abs() == Relay.MessageWritten(old(Abs()), dir, id, ec)
    {
      if ec == Success {
        log := log.(marks := log.marks + [Mark(ReadStage(dir) + 1, id)]);
      }
      if stopped {
        return;
      }
      if ec != Success {
        failed := true;
        return;
      }
      if dir.Request? {
        GetMessageFromServer(id);
      } else {
        prevHost := currHost;
        GetMessageFromClient();
      }
    }

    method HeaderRead(dir: Dir, id: nat, epoch: nat, ec: ErrorCode, headerLen: nat, verdict: Verdict)
      requires id < |messages| && headerLen <= |TextOf(messages[id], dir)|
      modifies this
      ensures Abs() == Relay.HeaderRead(old(Abs()), dir, id, epoch, ec, headerLen, verdict)
    {
      if dir.Request? {
        RequestHeaderRead(id, epoch, ec, headerLen, verdict);
      } else {
        ReplyHeaderRead(id, epoch, ec, headerLen, verdict);
      }
    }

    /** An operation leaves the queue of pending ones. */
    method Retire(k: nat)
      requires k < |pending|
      modifies this`pending, this`log
      ensures Abs() == Finish(old(Abs()), k)
    {
      pending := pending[..k] + pending[k + 1..];
      log := log.(completed := log.completed + 1);
    }

    /** The bytes are committed to the message. */
    method CommitHeader(k: nat, chunk: string)
      requires k < |pending| && pending[k].ReadHeader? && Fits(Abs(), pending[k])
      modifies this`messages, this`log
      ensures Abs() == Relay.HeaderReceived(old(Abs()), k, chunk)
    {
      var op := pending[k];
      log := log.Read(op.dir, chunk);
      messages := messages[op.id := AppendText(messages[op.id], op.dir, chunk)];
    }

    method HeaderArrived(k: nat, chunk: string, verdict: Verdict)
      requires k < |pending| && pending[k].ReadHeader? && Fits(Abs(), pending[k])
      modifies this
      ensures Abs() == Relay.HeaderArrived(old(Abs()), k, chunk, verdict)
    {
      hide PartialSearch, Relay.HeaderRead, Relay.HeaderReceived;
      var op := pending[k];
      CommitHeader(k, chunk);
      var scan := PartialSearchLoop(TextOf(messages[op.id], op.dir), HEADER_END, op.pos);
      if scan.full {
        log := log.WithHead(op.dir, |TextOf(messages[op.id], op.dir)|);
        Retire(k);
        HeaderRead(op.dir, op.id, op.epoch, Success, scan.pos + |HEADER_END|, verdict);
      } else {
        pending := pending[k := ReadHeader(op.dir, op.id, op.epoch, scan.pos)];
      }
    }

    method BodyArrived(k: nat, chunk: string)
      requires k < |pending| && Fits(Abs(), pending[k])
      requires pending[k].ReadCounted? || pending[k].ReadChunks?
      modifies this
      ensures old(pending[k]).ReadCounted? ==> Abs() == Relay.CountedArrived(old(Abs()), k, chunk)
      ensures old(pending[k]).ReadChunks? ==> Abs() == Relay.ChunksArrived(old(Abs()), k, chunk)
    {
      hide PartialSearch, Relay.BodyRead;
      var op := pending[k];
      var body := op.body + chunk;
      log := log.Read(op.dir, chunk);
      if op.ReadCounted? {
        if |body| == op.limit {
          Retire(k);
          BodyRead(op.dir, op.id, body, Success);
        } else {
          pending := pending[k := ReadCounted(op.dir, op.id, op.epoch, body, op.limit)];
        }
      } else {
        var scan := PartialSearchLoop(body, LAST_CHUNK, op.pos);
        if scan.full {
          Retire(k);
          BodyRead(op.dir, op.id, body, Success);
        } else {
          pending := pending[k := ReadChunks(op.dir, op.id, op.epoch, body, scan.pos)];
        }
      }
    }

    method WriteAccepted(k: nat, count: nat)
      requires k < |pending| && pending[k].Write? && pending[k].sent + count <= |pending[k].data|
      modifies this
      ensures Abs() == Relay.WriteAccepted(old(Abs()), k, count)
    {
      var op := pending[k];
      var sent := op.sent + count;
      log := log.Written(op.dir, op.data[op.sent..sent]);
      if sent == |op.data| {
        Retire(k);
        MessageWritten(op.dir, op.id, Success);
      } else {
        pending := pending[k := Write(op.dir, op.id, op.epoch, op.data, sent)];
      }
    }

    method OpBroken(k: nat, ec: ErrorCode, verdict: Verdict)
      requires k < |pending| && Fits(Abs(), pending[k])
      requires !pending[k].Resolve? && !pending[k].Connect?
      modifies this
      ensures Abs() == Relay.OpBroken(old(Abs()), k, ec, verdict)
    {
      hide Relay.HeaderRead, Relay.BodyRead, Relay.MessageWritten;
      var op := pending[k];
      Retire(k);
      match op
      case ReadHeader(dir, id, epoch, _) => HeaderRead(dir, id, epoch, ec, 0, verdict);
      case ReadCounted(dir, id, _, body, _) => BodyRead(dir, id, body, ec);
      case ReadChunks(dir, id, _, body, _) => BodyRead(dir, id, body, ec);
      case Write(dir, id, _, _, _) => MessageWritten(dir, id, ec);
    }

    /** One completion, as the io_context delivers it, whichever it is: objects stay in
        reachable states, and safe, and go on with the operation that is due. */
    method Complete(e: Event)
      requires Reachable(Abs()) && Enabled(Abs(), e)
      modifies this
      ensures Abs() == Step(old(Abs()), e) && Reachable(Abs()) && Safe(Abs())
      ensures GoesOn(old(Abs()), e, Abs()) && Accounts(old(Abs()), e, Abs())
    {
      hide Relay.HeaderArrived, Relay.CountedArrived, Relay.ChunksArrived, Relay.WriteAccepted, Relay.OpBroken;
      hide Relay.ServerResolved, Relay.ServerConnected, Relay.HandleWait, Reachable, Safe;
      hide GoesOn, Accounts;
      EveryStepGoesOn(Abs(), e);
      ReachableStep(Abs(), e);
      ReachableIsSafe(Step(Abs(), e));
      match e
      case Arrived(k, chunk, verdict) =>
        if pending[k].ReadHeader? {
          HeaderArrived(k, chunk, verdict);
        } else {
          BodyArrived(k, chunk);
        }
      case Accepted(k, count) => WriteAccepted(k, count);
      case Broken(k, ec, verdict) => OpBroken(k, ec, verdict);
      case Resolved(k, ec, endpoints, open) =>
        var id := pending[k].id;
        Retire(k);
        ServerResolved(id, ec, endpoints, open);
      case Connected(k, ec, endpoint, open) =>
        var id := pending[k].id;
        Retire(k);
        ServerConnected(id, ec, endpoint, open);
      case TimerDone(ec) =>
        timers := timers - 1;
        log := log.(completed := log.completed + 1);
        HandleWait(ec);
    }
  }
}
