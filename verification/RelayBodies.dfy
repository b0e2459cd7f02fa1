/** When a message ends, and what it then is, in terms of the arrivals of a session. */
module RelayBodies {
  import opened Search
  import opened Http
  import opened Chunked
  import opened Relay
  import opened RelayShape
  import opened RelayFraming

  /** A session that runs takes the header: of a request, if its version is supported and
      a host can be read; of a reply, if nothing throws. */
  ghost predicate Accepts(s: State, dir: Dir, message: string, verdict: Verdict) {
    && !s.stopped
    && if dir.Request? then verdict == Proceed && ParseField(message, "host").Value?
       else verdict != Throws
  }

  /** The state in which `read_body` is called. */
  ghost function Continued(s: State, chunk: string): State
    requires s.pending != [] && s.pending[0].ReadHeader? && Fits(s, s.pending[0])
  {
    var op, u := s.pending[0], HeaderFinished(s, 0, chunk);
    match (op.dir, ParseField(u.Text(op.dir, op.id), "host"))
    case (Request, Value(host)) => SetHost(u, host)
    case _ => u
  }

  /** A reachable session one arrival before the end of a header of `h` bytes. */
  ghost predicate Completing(s: State, chunk: string, verdict: Verdict, h: nat) {
    && Reachable(s) && Enabled(s, Arrived(0, chunk, verdict)) && s.pending[0].ReadHeader?
    && HeaderEnd(s.Text(s.pending[0].dir, s.pending[0].id) + chunk) == Some(h)
    && Accepts(s, s.pending[0].dir, s.Text(s.pending[0].dir, s.pending[0].id) + chunk, verdict)
  }

  lemma ContinuedKeeps(s: State, chunk: string)
    requires Shape(s) && s.pending != [] && s.pending[0].ReadHeader?
    ensures var op, u := s.pending[0], Continued(s, chunk);
            && u.stopped == s.stopped && u.failed == s.failed && u.pending == [] && |u.messages| == |s.messages|
            && u.Text(op.dir, op.id) == s.Text(op.dir, op.id) + chunk
            && op.id == |s.messages| - 1 && Stage(u) == ReadStage(op.dir)
            && u.log.Heads(op.dir) == s.log.Heads(op.dir) + [|s.Text(op.dir, op.id)| + |chunk|]
  {
    hide ParseField, Base;
    HeaderReceivedKeeps(s, chunk);
  }

  /** The arrival that completes an accepted header leads to `read_body`. */
  lemma HeaderGoesOn(s: State, chunk: string, verdict: Verdict, h: nat)
    requires Completing(s, chunk, verdict, h)
    ensures Shape(s) && !s.stopped && !s.failed
    ensures var op := s.pending[0];
            var message := s.Text(op.dir, op.id) + chunk;
            && h <= |message|
            && Step(s, Arrived(0, chunk, verdict)) ==
               ReadBody(Continued(s, chunk), op.dir, op.id, op.epoch, message[..h])
  {
    hide Reachable, PartialSearch, Find, ParseField, ReadBody, Searched, Frames, Base, HeaderReceived, HeaderFinished;
    ReachableFrames(s);
    HeaderReceivedKeeps(s, chunk);
    var op := s.pending[0];
    ResumedScanIsFullSearch(s.Text(op.dir, op.id), chunk, HEADER_END, op.pos);
  }

  /** After the callback of `read_body` the message is as it was, and its read is done. */
  lemma MessageReadDone(s: State, dir: Dir)
    requires s.messages != [] && Stage(s) == ReadStage(dir)
    ensures var t := MessageRead(s, dir, |s.messages| - 1);
            && |t.messages| == |s.messages| && t.Text(dir, |s.messages| - 1) == s.Text(dir, |s.messages| - 1)
            && ReadDone(t, |s.messages| - 1, dir) && t.log.Heads(dir) == s.log.Heads(dir)
  {
  }

  /** A message without a body ends with the arrival that completes its header, and is
      all that had arrived by then, surplus included. */
  lemma BodylessIsWhatArrived(s: State, chunk: string, verdict: Verdict, h: nat)
    requires Completing(s, chunk, verdict, h)
    requires var op := s.pending[0]; IdentifyBody((s.Text(op.dir, op.id) + chunk)[..h]) == NoBody
    ensures var op, t := s.pending[0], Step(s, Arrived(0, chunk, verdict));
            && |t.messages| == |s.messages| && op.id == |s.messages| - 1
            && ReadDone(t, op.id, op.dir)
            && t.Text(op.dir, op.id) == s.Text(op.dir, op.id) + chunk
            && t.log.Heads(op.dir) == s.log.Heads(op.dir) + [|t.Text(op.dir, op.id)|]
  {
    hide Step, ReadBody, MessageRead, IdentifyBody, Reachable, Base, ParseField, HeaderEnd;
    HeaderGoesOn(s, chunk, verdict, h);
    var op, u := s.pending[0], Continued(s, chunk);
    hide *;
    ContinuedKeeps(s, chunk);
    ReadBodyBodyless(u, op.dir, op.id, op.epoch, (s.Text(op.dir, op.id) + chunk)[..h]);
    MessageReadDone(u, op.dir);
  }

  lemma ReadBodyBodyless(s: State, dir: Dir, id: nat, epoch: nat, header: string)
    requires id < |s.messages| && !s.stopped && IdentifyBody(header) == NoBody
    ensures ReadBody(s, dir, id, epoch, header) == MessageRead(s, dir, id)
  {
    hide IdentifyBody, MessageRead, Find, Declared;
  }

  lemma NotDoneYet(s: State, op: Op, dir: Dir)
    requires s.messages != [] && Stage(s) == ReadStage(dir)
    ensures var t := Begin(s, op);
            && !ReadDone(t, |s.messages| - 1, dir) && |t.messages| == |s.messages| && t.failed == s.failed
            && t.Text(dir, |s.messages| - 1) == s.Text(dir, |s.messages| - 1)
            && (s.pending == [] ==> t.pending == [op])
  {
  }

  lemma ReadBodyChunked(s: State, dir: Dir, id: nat, epoch: nat, header: string)
    requires id < |s.messages| && !s.stopped && IdentifyBody(header) == ChunkedCoding
    ensures ReadBody(s, dir, id, epoch, header) ==
            if Find(s.Text(dir, id), LAST_CHUNK, |header|).Some? then MessageRead(s, dir, id)
            else Begin(s, ReadChunks(dir, id, epoch, "", 0))
  {
    hide IdentifyBody, MessageRead, Find, Declared;
  }

  /** A header that announces a chunked body: the message ends at once exactly if the
      surplus contains the pattern, and otherwise a read for the rest is started, with
      an empty buffer. */
  lemma ChunkedAfterHeader(s: State, chunk: string, verdict: Verdict, header: string, surplus: string)
    requires Completing(s, chunk, verdict, |header|)
    requires var op := s.pending[0]; s.Text(op.dir, op.id) + chunk == header + surplus
    requires IdentifyBody(header) == ChunkedCoding
    ensures var op, t := s.pending[0], Step(s, Arrived(0, chunk, verdict));
            && |t.messages| == |s.messages| && op.id == |s.messages| - 1
            && t.Text(op.dir, op.id) == header + surplus
            && (ReadDone(t, op.id, op.dir) <==> Find(surplus, LAST_CHUNK, 0).Some?)
            && (!ReadDone(t, op.id, op.dir) ==>
                  t.pending == [ReadChunks(op.dir, op.id, op.epoch, "", 0)] && !t.failed)
  {
    hide *;
    HeaderOf(header, surplus);
    FindBehind(header, surplus);
    ChunkedAfter(s, chunk, verdict, |header|);
  }

  lemma HeaderOf(header: string, surplus: string)
    ensures (header + surplus)[..|header|] == header
  {
  }

  lemma ChunkedAfter(s: State, chunk: string, verdict: Verdict, h: nat)
    requires Completing(s, chunk, verdict, h)
    requires var op := s.pending[0]; IdentifyBody((s.Text(op.dir, op.id) + chunk)[..h]) == ChunkedCoding
    ensures var op, t := s.pending[0], Step(s, Arrived(0, chunk, verdict));
            && |t.messages| == |s.messages| && op.id == |s.messages| - 1
            && t.Text(op.dir, op.id) == s.Text(op.dir, op.id) + chunk
            && (ReadDone(t, op.id, op.dir) <==> Find(s.Text(op.dir, op.id) + chunk, LAST_CHUNK, h).Some?)
            && (!ReadDone(t, op.id, op.dir) ==>
                  t.pending == [ReadChunks(op.dir, op.id, op.epoch, "", 0)] && !t.failed)
  {
    hide Step, ReadBody, MessageRead, IdentifyBody, Reachable, Base, ParseField, HeaderEnd;
    HeaderGoesOn(s, chunk, verdict, h);
    var op, u := s.pending[0], Continued(s, chunk);
    hide *;
    ContinuedKeeps(s, chunk);
    ReadBodyChunked(u, op.dir, op.id, op.epoch, (s.Text(op.dir, op.id) + chunk)[..h]);
    MessageReadDone(u, op.dir);
    NotDoneYet(u, ReadChunks(op.dir, op.id, op.epoch, "", 0), op.dir);
  }

  /** If all of the surplus belongs to a body that hides no pattern, the message ends at
      once exactly if the whole body came along. */
  lemma ChunkedAtHeader(s: State, chunk: string, verdict: Verdict, header: string, surplus: string,
                        later: string, chunks: seq<Chunk>, zeros: nat)
    requires Completing(s, chunk, verdict, |header|)
    requires var op := s.pending[0]; s.Text(op.dir, op.id) + chunk == header + surplus
    requires IdentifyBody(header) == ChunkedCoding
    requires NoneHidden(chunks) && forall i :: 0 <= i < |chunks| ==> WellFormed(chunks[i])
    requires surplus + later == Encode(chunks, zeros)
    ensures var op, t := s.pending[0], Step(s, Arrived(0, chunk, verdict));
            && |t.messages| == |s.messages| && op.id == |s.messages| - 1
            && t.Text(op.dir, op.id) == header + surplus
            && (ReadDone(t, op.id, op.dir) <==> later == "")
            && (later != "" ==> t.pending == [ReadChunks(op.dir, op.id, op.epoch, "", 0)])
  {
    hide Completing, Step, IdentifyBody, Encode, NoneHidden, WellFormed, Find, ReadDone;
    ChunkedAfterHeader(s, chunk, verdict, header, surplus);
    LastChunkOnlyAtEnd(chunks, zeros);
    SurplusDetection("", surplus, later, Encode(chunks, zeros));
    assert "" + surplus == surplus;
  }

  /** Once that read is under way, an arrival ends it if and only if nothing of the body
      is missing and the last five bytes were not divided between the two reads; the
      message is then header and body and not a byte more. */
  lemma ChunkedReadEnds(s: State, chunk: string, verdict: Verdict, header: string, surplus: string,
                        missing: string, chunks: seq<Chunk>, zeros: nat)
    requires Reachable(s) && Enabled(s, Arrived(0, chunk, verdict)) && s.pending[0].ReadChunks?
    requires var op := s.pending[0]; s.Text(op.dir, op.id) == header + surplus
    requires NoneHidden(chunks) && forall i :: 0 <= i < |chunks| ==> WellFormed(chunks[i])
    requires surplus + (s.pending[0].body + chunk) + missing == Encode(chunks, zeros)
    ensures var op, t := s.pending[0], Step(s, Arrived(0, chunk, verdict));
            && |t.messages| == |s.messages| && op.id == |s.messages| - 1
            && (ReadDone(t, op.id, op.dir) <==> missing == "" && |op.body + chunk| >= 5)
            && (ReadDone(t, op.id, op.dir) ==> t.Text(op.dir, op.id) == header + Encode(chunks, zeros))
  {
    var body := s.pending[0].body + chunk;
    hide *;
    PlainBodyEnds(header, surplus, body, missing, chunks, zeros);
    ChunksArrivedDone(s, chunk, verdict);
  }

  lemma PlainBodyEnds(header: string, surplus: string, body: string, missing: string, chunks: seq<Chunk>, zeros: nat)
    requires NoneHidden(chunks) && forall i :: 0 <= i < |chunks| ==> WellFormed(chunks[i])
    requires surplus + body + missing == Encode(chunks, zeros)
    ensures Find(body, LAST_CHUNK, 0).Some? <==> missing == "" && |body| >= 5
    ensures missing == "" ==> (header + surplus) + body == header + Encode(chunks, zeros)
  {
    hide *;
    LastChunkOnlyAtEnd(chunks, zeros);
    BodyDetection(surplus, body, missing, Encode(chunks, zeros));
    if missing == "" {
      NothingMissing(surplus, body, missing);
      WholeText(header, surplus, body, Encode(chunks, zeros));
    }
  }

  lemma NothingMissing(surplus: string, body: string, missing: string)
    requires missing == ""
    ensures surplus + body + missing == surplus + body
  {
  }

  /** An arrival at a chunked read, whatever the bytes are. */
  lemma ChunksArrivedDone(s: State, chunk: string, verdict: Verdict)
    requires Reachable(s) && Enabled(s, Arrived(0, chunk, verdict)) && s.pending[0].ReadChunks?
    ensures Shape(s)
    ensures var op, t := s.pending[0], Step(s, Arrived(0, chunk, verdict));
            && |t.messages| == |s.messages| && op.id == |s.messages| - 1
            && (ReadDone(t, op.id, op.dir) <==> Find(op.body + chunk, LAST_CHUNK, 0).Some?)
            && (ReadDone(t, op.id, op.dir) ==>
                  t.Text(op.dir, op.id) == s.Text(op.dir, op.id) + (op.body + chunk))
  {
    hide Reachable, Find, PartialSearch, Searched, Frames, Base, MessageRead;
    ReachableFrames(s);
    var op := s.pending[0];
    ResumedScanIsFullSearch(op.body, chunk, LAST_CHUNK, op.pos);
    var u := Append(Finish(Receive(s, op.dir, chunk), 0), op.dir, op.id, op.body + chunk);
    MessageReadDone(u, op.dir);
  }

  /** For every chunked body, also one that hides the pattern: the read has ended by the
      time the body has arrived, unless its last five bytes are divided. */
  lemma WholeBodyIsRead(s: State, chunk: string, verdict: Verdict, header: string, surplus: string,
                        chunks: seq<Chunk>, zeros: nat)
    requires Reachable(s) && Enabled(s, Arrived(0, chunk, verdict)) && s.pending[0].ReadChunks?
    requires var op := s.pending[0]; s.Text(op.dir, op.id) == header + surplus
    requires surplus + (s.pending[0].body + chunk) == Encode(chunks, zeros) && |s.pending[0].body + chunk| >= 5
    ensures var op, t := s.pending[0], Step(s, Arrived(0, chunk, verdict));
            && op.id < |t.messages| && ReadDone(t, op.id, op.dir)
            && t.Text(op.dir, op.id) == header + Encode(chunks, zeros)
  {
    var body := s.pending[0].body + chunk;
    hide *;
    BodyEnds(surplus, body, chunks, zeros);
    WholeText(header, surplus, body, Encode(chunks, zeros));
    ChunksArrivedDone(s, chunk, verdict);
  }

  lemma BodyEnds(surplus: string, body: string, chunks: seq<Chunk>, zeros: nat)
    requires surplus + body == Encode(chunks, zeros) && |body| >= 5
    ensures Find(body, LAST_CHUNK, 0).Some?
  {
    hide *;
    EndsInLastChunk(chunks, zeros);
    PieceEnds(Encode(chunks, zeros), surplus, body);
    FoundAt(body, |body| - 5);
  }

  lemma WholeText(header: string, surplus: string, body: string, whole: string)
    requires surplus + body == whole
    ensures (header + surplus) + body == header + whole
  {
  }

  lemma FoundAt(text: string, j: nat)
    requires Matches(text, LAST_CHUNK, j)
    ensures Find(text, LAST_CHUNK, 0).Some?
  {
  }
}
