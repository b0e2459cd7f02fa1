/** One proxy session as a step machine: what Socket.cpp's completion handlers
    do to the session, as functions on a state value.

    The environment chooses every event: how the streams are cut, which pending
    operation completes next, and with what error. An event is the completion of
    a single `async_read_some`, `async_write_some`, resolve, connect or timer
    wait; the composed operations of Asio (`async_read_until`, `async_read`,
    `async_write`) are part of the state. A handler runs as one atomic step. */
module Relay {
  import opened Search
  import opened Http

  const HEADER_END: string := "\r\n\r\n"
  const LAST_CHUNK: string := "0\r\n\r\n"

  datatype ErrorCode = Success | Aborted | Eof | Reset | Unknown

  /** How the parts of a header handler that are not modelled end: the HTTP
      version check, and printing the peer's port. */
  datatype Verdict = Proceed | TooNew | Throws

  /** An address, with the host name it was resolved from. */
  datatype Endpoint = Endpoint(host: string, address: nat)

  /** A connection made to an endpoint, with a number of its own. */
  datatype Connection = Connection(host: string, address: nat, dial: nat)

  /** An element of `messages`. */
  datatype Exchange = Exchange(request: string, reply: string)

  /** Requests flow from the client to the server, replies back. */
  datatype Dir = Request | Reply

  /** A pending asynchronous operation. `epoch` is the size `messages` had when the
      handler captured its reference into it. */
  datatype Op =
    | ReadHeader(dir: Dir, id: nat, epoch: nat, pos: nat)
    | ReadCounted(dir: Dir, id: nat, epoch: nat, body: string, limit: nat)
    | ReadChunks(dir: Dir, id: nat, epoch: nat, body: string, pos: nat)
    | Resolve(id: nat, host: string)
    | Connect(id: nat, endpoints: seq<Endpoint>)
    | Write(dir: Dir, id: nat, epoch: nat, data: string, sent: nat)

  /** All bytes read from one peer, and all bytes written to the other. */
  datatype Flow = Flow(read: string, written: string)

  /** A message read (stages 0 and 2) or written (stages 1 and 3). */
  datatype Mark = Mark(stage: nat, id: nat)

  /** What has happened to a session so far: both byte flows, the completed stages, the
      host of each request, the connection each request was written to and the one
      each reply was read from, how many bytes of each message had arrived when its
      header was complete, and how many operations were started and completed. */
  datatype History = History(
    requests: Flow,
    replies: Flow,
    marks: seq<Mark>,
    hosts: seq<string>,
    via: seq<Option<Connection>>,
    answered: seq<Option<Connection>>,
    requestHeads: seq<nat>,
    replyHeads: seq<nat>,
    started: nat,
    completed: nat)
  {
    function Heads(dir: Dir): seq<nat> {
      if dir.Request? then requestHeads else replyHeads
    }

    function WithHead(dir: Dir, n: nat): History {
      if dir.Request? then this.(requestHeads := requestHeads + [n])
      else this.(replyHeads := replyHeads + [n])
    }

    function FlowOf(dir: Dir): Flow {
      if dir.Request? then requests else replies
    }

    function Read(dir: Dir, chunk: string): History {
      if dir.Request? then this.(requests := requests.(read := requests.read + chunk))
      else this.(replies := replies.(read := replies.read + chunk))
    }

    function Written(dir: Dir, chunk: string): History {
      if dir.Request? then this.(requests := requests.(written := requests.written + chunk))
      else this.(replies := replies.(written := replies.written + chunk))
    }
  }

  /** The fields of a `Socket`, `failed` for an exception that left a handler, what
      is pending in Asio, the state of the server socket and the number of connections made, and
      the history. */
  datatype State = State(
    stopped: bool,
    failed: bool,
    prevHost: string,
    currHost: string,
    messages: seq<Exchange>,
    pending: seq<Op>,
    timers: nat,
    serverOpen: bool,
    peer: Option<Connection>,
    dials: nat,
    log: History)
  {
    function Text(dir: Dir, id: nat): string
      requires id < |messages|
    {
      TextOf(messages[id], dir)
    }
  }

  function TextOf(m: Exchange, dir: Dir): string {
    if dir.Request? then m.request else m.reply
  }

  /** The stage at which a message of this direction has been read; it is written one later. */
  function ReadStage(dir: Dir): nat {
    if dir.Request? then 0 else 2
  }

  datatype Event =
    | Arrived(op: nat, chunk: string, verdict: Verdict)
    | Accepted(op: nat, count: nat)
    | Broken(op: nat, ec: ErrorCode, verdict: Verdict)
    | Resolved(op: nat, ec: ErrorCode, endpoints: seq<Endpoint>, open: bool)
    | Connected(op: nat, ec: ErrorCode, endpoint: Endpoint, open: bool)
    | TimerDone(ec: ErrorCode)

  /** The buffer positions an operation holds exist. */
  predicate Fits(s: State, op: Op) {
    match op
    case ReadHeader(dir, id, _, pos) => id < |s.messages| && pos <= |s.Text(dir, id)|
    case ReadCounted(_, id, _, body, limit) => id < |s.messages| && |body| <= limit
    case ReadChunks(_, id, _, body, pos) => id < |s.messages| && pos <= |body|
    case Resolve(id, _) => id < |s.messages|
    case Connect(id, _) => id < |s.messages|
    case Write(_, id, _, data, sent) => id < |s.messages| && sent <= |data|
  }

  /** What a completion can be: a read delivers at least one byte and no more than
      there is room for, unless there was no room; a write accepts at least one
      byte and no more than are left, unless none were; a resolver answers
      with endpoints of the host it was asked for; a connection is to one of the
      endpoints given. */
  predicate Possible(s: State, e: Event) {
    match e
    case Arrived(k, chunk, _) =>
      && k < |s.pending|
      && (match s.pending[k]
          case ReadHeader(_, _, _, _) => chunk != ""
          case ReadCounted(_, _, _, body, limit) =>
            |body| + |chunk| <= limit && (chunk == "" <==> |body| == limit)
          case ReadChunks(_, _, _, _, _) => chunk != ""
          case _ => false)
    case Accepted(k, count) =>
      && k < |s.pending| && s.pending[k].Write?
      && s.pending[k].sent + count <= |s.pending[k].data|
      && (count == 0 <==> s.pending[k].sent == |s.pending[k].data|)
    case Broken(k, ec, _) =>
      && k < |s.pending| && ec != Success
      && !s.pending[k].Resolve? && !s.pending[k].Connect?
    case Resolved(k, ec, endpoints, _) =>
      && k < |s.pending| && s.pending[k].Resolve?
      && (ec == Success ==> forall i :: 0 <= i < |endpoints| ==> endpoints[i].host == s.pending[k].host)
    case Connected(k, ec, endpoint, open) =>
      && k < |s.pending| && s.pending[k].Connect?
      && (ec == Success ==> open && endpoint in s.pending[k].endpoints)
    case TimerDone(_) => s.timers > 0
  }

  predicate Enabled(s: State, e: Event) {
    && !s.failed
    && Possible(s, e)
    && forall k :: 0 <= k < |s.pending| ==> Fits(s, s.pending[k])
  }

  // ---- Pieces ----

  function Begin(s: State, op: Op): State {
    s.(pending := s.pending + [op], log := s.log.(started := s.log.started + 1))
  }

  function Finish(s: State, k: nat): State
    requires k < |s.pending|
  {
    s.(pending := s.pending[..k] + s.pending[k + 1..], log := s.log.(completed := s.log.completed + 1))
  }

  function Receive(s: State, dir: Dir, chunk: string): State {
    s.(log := s.log.Read(dir, chunk))
  }

  function Deliver(s: State, dir: Dir, chunk: string): State {
    s.(log := s.log.Written(dir, chunk))
  }

  function AppendText(m: Exchange, dir: Dir, chunk: string): Exchange {
    if dir.Request? then m.(request := m.request + chunk) else m.(reply := m.reply + chunk)
  }

  function Append(s: State, dir: Dir, id: nat, chunk: string): State
    requires id < |s.messages|
  {
    s.(messages := s.messages[id := AppendText(s.messages[id], dir, chunk)])
  }

  function Done(s: State, stage: nat, id: nat): State {
    s.(log := s.log.(marks := s.log.marks + [Mark(stage, id)]))
  }

  function Headed(s: State, dir: Dir, n: nat): State {
    s.(log := s.log.WithHead(dir, n))
  }

  function Answered(s: State): State {
    s.(log := s.log.(answered := s.log.answered + [s.peer]))
  }

  /** An exception leaves the handler and with it `io_context::run`. */
  function Throw(s: State): State {
    s.(failed := true)
  }

  // ---- Socket.cpp ----

  /** A session just constructed. */
  function Fresh(): State {
    State(false, false, "", "", [], [], 0, false, None, 0,
          History(Flow("", ""), Flow("", ""), [], [], [], [], [], [], 0, 0))
  }

  /** `timer.async_wait`. */
  function WaitForTimer(s: State): State {
    s.(timers := s.timers + 1, log := s.log.(started := s.log.started + 1))
  }

  function Start(s: State): State {
    GetMessageFromClient(WaitForTimer(s))
  }

  function HandleWait(s: State, ec: ErrorCode): State {
    if s.stopped then s
    else match ec
      case Success => Close(s)
      case Aborted => WaitForTimer(s)
      case _ => s
  }

  function Close(s: State): State {
    if s.stopped then s else s.(stopped := true)
  }

  function GetMessageFromClient(s: State): State {
    var t := s.(messages := s.messages + [Exchange("", "")]);
    Begin(t, ReadHeader(Request, |s.messages|, |t.messages|, 0))
  }

  function SetHost(s: State, host: string): State {
    s.(currHost := host, log := s.log.(hosts := s.log.hosts + [host]))
  }

  function RequestHeaderRead(s: State, id: nat, epoch: nat, ec: ErrorCode, headerLen: nat, verdict: Verdict): State
    requires id < |s.messages| && headerLen <= |s.messages[id].request|
  {
    if s.stopped then s
    else if ec == Aborted then s
    else if ec == Eof && headerLen == 0 then Close(s)
    else if ec != Success then Throw(s)
    else match verdict
      case TooNew => s
      case Throws => Throw(s)
      case Proceed =>
        var request := s.messages[id].request;
        match ParseField(request, "host")
        case Value(host) =>
          ReadBody(SetHost(s, host), Request, id, epoch, request[..headerLen])
        case _ => Throw(s)
  }

  function ReplyHeaderRead(s: State, id: nat, epoch: nat, ec: ErrorCode, headerLen: nat, verdict: Verdict): State
    requires id < |s.messages| && headerLen <= |s.messages[id].reply|
  {
    if s.stopped then s
    else if ec == Aborted then s
    else if ec == Eof && headerLen == 0 then s
    else if ec == Reset then Close(s)
    else if ec != Success then Throw(s)
    else if verdict == Throws then Throw(s)
    else ReadBody(s, Reply, id, epoch, s.messages[id].reply[..headerLen])
  }

  function HeaderRead(s: State, dir: Dir, id: nat, epoch: nat, ec: ErrorCode, headerLen: nat, verdict: Verdict): State
    requires id < |s.messages| && headerLen <= |s.Text(dir, id)|
  {
    if dir.Request? then RequestHeaderRead(s, id, epoch, ec, headerLen, verdict)
    else ReplyHeaderRead(s, id, epoch, ec, headerLen, verdict)
  }

  /** The length a header declares. */
  function Declared(header: string): Option<nat> {
    match ParseField(header, "content-length")
    case Value(v) => Stoul(v)
    case _ => None
  }

  /** The room `read_body` gives `async_read`: a `size_t` difference, which wraps
      when more has been read than was declared. */
  function Remaining(declared: nat, plusLen: nat, headerLen: nat): nat {
    (declared - (plusLen - headerLen)) % SIZE_MOD
  }

  function ReadBody(s: State, dir: Dir, id: nat, epoch: nat, header: string): State
    requires id < |s.messages|
  {
    if s.stopped then s
    else
      var plus := s.Text(dir, id);
      match IdentifyBody(header)
      case NoBody => MessageRead(s, dir, id)
      case ContentLength => (
        match Declared(header)
        case Some(length) => Begin(s, ReadCounted(dir, id, epoch, "", Remaining(length, |plus|, |header|)))
        case None => Throw(s)
        )
      case ChunkedCoding =>
        if Find(plus, LAST_CHUNK, |header|).Some? then MessageRead(s, dir, id)
        else Begin(s, ReadChunks(dir, id, epoch, "", 0))
  }

  /** The handler `read_body` shares between its two reads. */
  function BodyRead(s: State, dir: Dir, id: nat, body: string, ec: ErrorCode): State
    requires id < |s.messages|
  {
    var t := Append(s, dir, id, body);
    match ec
    case Success => MessageRead(t, dir, id)
    case Eof => t
    case Aborted => t
    case _ => Throw(t)
  }

  /** The callback given to `read_body`. */
  function MessageRead(s: State, dir: Dir, id: nat): State
    requires id < |s.messages|
  {
    if dir.Request? then ResolveServer(Done(s, 0, id), id)
    else SendMessageToClient(Answered(Done(s, 2, id)), id)
  }

  function ResolveServer(s: State, id: nat): State
    requires id < |s.messages|
  {
    if s.serverOpen && s.prevHost == s.currHost then SendMessageToServer(s, id)
    else Begin(s, Resolve(id, s.currHost))
  }

  function ServerResolved(s: State, id: nat, ec: ErrorCode, endpoints: seq<Endpoint>, open: bool): State {
    if s.stopped then s
    else if ec != Success then Close(s)
    else ConnectToEndpoints(s, id, endpoints, open)
  }

  /** `async_connect` closes the socket and opens it again before it returns,
      unless there is nothing to connect to. */
  function ConnectToEndpoints(s: State, id: nat, endpoints: seq<Endpoint>, open: bool): State {
    var t := if endpoints == [] then s else s.(serverOpen := open, peer := None);
    Begin(t, Connect(id, endpoints))
  }

  function Dialled(s: State, endpoint: Endpoint): State {
    s.(serverOpen := true, peer := Some(Connection(endpoint.host, endpoint.address, s.dials)), dials := s.dials + 1)
  }

  function ServerConnected(s: State, id: nat, ec: ErrorCode, endpoint: Endpoint, open: bool): State
    requires id < |s.messages|
  {
    var t := if ec == Success then Dialled(s, endpoint)
             else s.(serverOpen := open);
    if s.stopped then t
    else if ec != Success then Close(t)
    else SendMessageToServer(t, id)
  }

  function SendMessageToServer(s: State, id: nat): State
    requires id < |s.messages|
  {
    Begin(s.(log := s.log.(via := s.log.via + [s.peer])), Write(Request, id, |s.messages|, s.messages[id].request, 0))
  }

  function GetMessageFromServer(s: State, id: nat): State {
    Begin(s, ReadHeader(Reply, id, |s.messages|, 0))
  }

  function SendMessageToClient(s: State, id: nat): State
    requires id < |s.messages|
  {
    Begin(s, Write(Reply, id, |s.messages|, s.messages[id].reply, 0))
  }

  /** The two handlers of `async_write`. */
  function MessageWritten(s: State, dir: Dir, id: nat, ec: ErrorCode): State {
    var t := if ec == Success then Done(s, ReadStage(dir) + 1, id) else s;
    if t.stopped then t
    else if ec != Success then Throw(t)
    else if dir.Request? then GetMessageFromServer(t, id)
    else GetMessageFromClient(t.(prevHost := t.currHost))
  }

  // ---- The composed operations of Asio ----

  /** Bytes of a header go into the message itself. */
  function HeaderReceived(s: State, k: nat, chunk: string): (t: State)
    requires k < |s.pending| && s.pending[k].ReadHeader? && Fits(s, s.pending[k])
    ensures |t.messages| == |s.messages| && t.pending == s.pending
    ensures t.Text(s.pending[k].dir, s.pending[k].id) == s.Text(s.pending[k].dir, s.pending[k].id) + chunk
  {
    var op := s.pending[k];
    Append(Receive(s, op.dir, chunk), op.dir, op.id, chunk)
  }

  /** The state in which the handler of a complete header runs. */
  function HeaderFinished(s: State, k: nat, chunk: string): (t: State)
    requires k < |s.pending| && s.pending[k].ReadHeader? && Fits(s, s.pending[k])
    ensures |t.messages| == |s.messages|
    ensures t.Text(s.pending[k].dir, s.pending[k].id) == s.Text(s.pending[k].dir, s.pending[k].id) + chunk
  {
    var op, t := s.pending[k], HeaderReceived(s, k, chunk);
    Finish(Headed(t, op.dir, |t.Text(op.dir, op.id)|), k)
  }

  /** `async_read_until` after an `async_read_some`: commit, scan, go on or finish. */
  function HeaderArrived(s: State, k: nat, chunk: string, verdict: Verdict): State
    requires k < |s.pending| && s.pending[k].ReadHeader? && Fits(s, s.pending[k])
  {
    var op, t := s.pending[k], HeaderReceived(s, k, chunk);
    var scan := PartialSearch(t.Text(op.dir, op.id), HEADER_END, op.pos);
    if scan.full then
      HeaderRead(HeaderFinished(s, k, chunk), op.dir, op.id, op.epoch, Success, scan.pos + |HEADER_END|, verdict)
    else t.(pending := t.pending[k := ReadHeader(op.dir, op.id, op.epoch, scan.pos)])
  }

  /** `async_read` with `transfer_all`: done when the buffer is full. */
  function CountedArrived(s: State, k: nat, chunk: string): State
    requires k < |s.pending| && s.pending[k].ReadCounted? && Fits(s, s.pending[k])
  {
    var op := s.pending[k];
    var t, body := Receive(s, op.dir, chunk), op.body + chunk;
    if |body| == op.limit then BodyRead(Finish(t, k), op.dir, op.id, body, Success)
    else t.(pending := t.pending[k := ReadCounted(op.dir, op.id, op.epoch, body, op.limit)])
  }

  function ChunksArrived(s: State, k: nat, chunk: string): State
    requires k < |s.pending| && s.pending[k].ReadChunks? && Fits(s, s.pending[k])
  {
    var op := s.pending[k];
    var t, body := Receive(s, op.dir, chunk), op.body + chunk;
    var scan := PartialSearch(body, LAST_CHUNK, op.pos);
    if scan.full then BodyRead(Finish(t, k), op.dir, op.id, body, Success)
    else t.(pending := t.pending[k := ReadChunks(op.dir, op.id, op.epoch, body, scan.pos)])
  }

  /** `async_write` after an `async_write_some`. */
  function WriteAccepted(s: State, k: nat, count: nat): State
    requires k < |s.pending| && s.pending[k].Write? && s.pending[k].sent + count <= |s.pending[k].data|
  {
    var op := s.pending[k];
    var sent := op.sent + count;
    var t := Deliver(s, op.dir, op.data[op.sent..sent]);
    if sent == |op.data| then MessageWritten(Finish(t, k), op.dir, op.id, Success)
    else t.(pending := t.pending[k := Write(op.dir, op.id, op.epoch, op.data, sent)])
  }

  function OpBroken(s: State, k: nat, ec: ErrorCode, verdict: Verdict): State
    requires k < |s.pending| && Fits(s, s.pending[k])
    requires !s.pending[k].Resolve? && !s.pending[k].Connect?
  {
    var t := Finish(s, k);
    match s.pending[k]
    case ReadHeader(dir, id, epoch, _) => HeaderRead(t, dir, id, epoch, ec, 0, verdict)
    case ReadCounted(dir, id, _, body, _) => BodyRead(t, dir, id, body, ec)
    case ReadChunks(dir, id, _, body, _) => BodyRead(t, dir, id, body, ec)
    case Write(dir, id, _, _, _) => MessageWritten(t, dir, id, ec)
  }

  function Step(s: State, e: Event): State
    requires Enabled(s, e)
  {
    match e
    case Arrived(k, chunk, verdict) => (
      match s.pending[k]
      case ReadHeader(_, _, _, _) => HeaderArrived(s, k, chunk, verdict)
      case ReadCounted(_, _, _, _, _) => CountedArrived(s, k, chunk)
      case ReadChunks(_, _, _, _, _) => ChunksArrived(s, k, chunk)
      )
    case Accepted(k, count) => WriteAccepted(s, k, count)
    case Broken(k, ec, verdict) => OpBroken(s, k, ec, verdict)
    case Resolved(k, ec, endpoints, open) =>
      ServerResolved(Finish(s, k), s.pending[k].id, ec, endpoints, open)
    case Connected(k, ec, endpoint, open) =>
      ServerConnected(Finish(s, k), s.pending[k].id, ec, endpoint, open)
    case TimerDone(ec) =>
      HandleWait(s.(timers := s.timers - 1, log := s.log.(completed := s.log.completed + 1)), ec)
  }

  ghost predicate ValidRun(s: State, events: seq<Event>)
    decreases |events|
  {
    events == [] || (Enabled(s, events[0]) && ValidRun(Step(s, events[0]), events[1..]))
  }

  ghost function Run(s: State, events: seq<Event>): State
    requires ValidRun(s, events)
    decreases |events|
  {
    if events == [] then s else Run(Step(s, events[0]), events[1..])
  }

  /** The states a session can be in after `start()`. */
  ghost predicate Reachable(s: State) {
    exists events :: ValidRun(Start(Fresh()), events) && Run(Start(Fresh()), events) == s
  }

  /** What the first state satisfies and every step keeps holds of every reachable state. */
  lemma RunInduction(inv: State -> bool, s: State, events: seq<Event>)
    requires inv(s) && ValidRun(s, events)
    requires forall t, e :: inv(t) && Enabled(t, e) ==> inv(Step(t, e))
    ensures inv(Run(s, events))
    decreases |events|
  {
    hide Enabled, Step;
    if events != [] {
      RunInduction(inv, Step(s, events[0]), events[1..]);
    }
  }

  lemma ReachableInduction(inv: State -> bool, s: State)
    requires Reachable(s) && inv(Start(Fresh()))
    requires forall t, e :: inv(t) && Enabled(t, e) ==> inv(Step(t, e))
    ensures inv(s)
  {
    hide ValidRun, Run, Start, Fresh, Enabled, Step;
    var events :| ValidRun(Start(Fresh()), events) && Run(Start(Fresh()), events) == s;
    RunInduction(inv, Start(Fresh()), events);
  }

  lemma ValidRunAppend(s: State, events: seq<Event>, e: Event)
    requires ValidRun(s, events) && Enabled(Run(s, events), e)
    ensures ValidRun(s, events + [e]) && Run(s, events + [e]) == Step(Run(s, events), e)
    decreases |events|
  {
    hide Enabled, Step;
    if events == [] {
      assert [e][1..] == [];
      assert [] + [e] == [e];
    } else {
      assert (events + [e])[1..] == events[1..] + [e];
      ValidRunAppend(Step(s, events[0]), events[1..], e);
    }
  }

  /** A step leads from reachable states to reachable states. */
  lemma ReachableStep(s: State, e: Event)
    requires Reachable(s) && Enabled(s, e)
    ensures Reachable(Step(s, e))
  {
    hide Enabled, Step, Start, Fresh, ValidRun, Run;
    var events :| ValidRun(Start(Fresh()), events) && Run(Start(Fresh()), events) == s;
    ValidRunAppend(Start(Fresh()), events, e);
  }

  lemma ReachableStart()
    ensures Reachable(Start(Fresh()))
  {
    assert ValidRun(Start(Fresh()), []);
    assert Run(Start(Fresh()), []) == Start(Fresh());
  }
}
