/** Runs in which the conditions of the framing theorems fail, on the sample requests. */
module RelayExamples {
  import opened Search
  import opened Http
  import opened Chunked
  import opened Relay
  import opened RelayShape
  import opened RelayFlow
  import opened RelayFraming
  import opened RelayBodies
  import opened SampleRequests

  // ---- The first arrival of a session ----

  lemma FirstArrival(request: string, h: nat)
    requires request != "" && HeaderEnd(request) == Some(h) && ParseField(request, "host").Value?
    ensures var s := Start(Fresh());
            && Completing(s, request, Proceed, h)
            && s.pending == [ReadHeader(Request, 0, 1, 0)] && |s.messages| == 1
            && s.Text(Request, 0) == "" && s.log.requestHeads == []
  {
    ReachableStart();
    hide HeaderEnd, ParseField, Reachable;
    assert "" + request == request;
  }

  /** What has been read of the first request, when its read is done. */
  lemma ReadIsFirstMessage(s: State)
    requires Reachable(s) && |s.messages| == 1 && ReadDone(s, 0, Request)
    ensures s.log.requests.read == s.messages[0].request
  {
    hide Reachable;
    ReachableShape(s);
    RelayConserves(s, Request);
    assert s.messages[..0] == [];
    assert Texts(s.messages, Request) == s.messages[0].request;
  }

  // ---- No body ----

  lemma FirstBodyless(request: string, h: nat)
    requires request != "" && HeaderEnd(request) == Some(h) && h <= |request|
    requires IdentifyBody(request[..h]) == NoBody && ParseField(request, "host").Value?
    ensures var t := Step(Start(Fresh()), Arrived(0, request, Proceed));
            && Reachable(t) && |t.messages| == 1 && ReadDone(t, 0, Request)
            && t.messages[0].request == request && t.log.requests.read == request
            && t.log.requestHeads == [|request|]
  {
    hide HeaderEnd, ParseField, IdentifyBody, Reachable, Step, Start, Fresh;
    FirstArrival(request, h);
    assert Completing(Start(Fresh()), request, Proceed, h);
    assert "" + request == request;
    BodylessIsWhatArrived(Start(Fresh()), request, Proceed, h);
    ReachableStep(Start(Fresh()), Arrived(0, request, Proceed));
    ReadIsFirstMessage(Step(Start(Fresh()), Arrived(0, request, Proceed)));
  }

  /** The sessions that get `request`, and `more` with it or later. */
  lemma TwoCuts(request: string, more: string)
    requires more != "" && HeaderEnd(request) == Some(|request|) && IdentifyBody(request) == NoBody
    requires ParseField(request, "host").Value? && ParseField(request + more, "host").Value?
    ensures exists s, t ::
              && Reachable(s) && Reachable(t)
              && s.log.requests.read <= request + more && t.log.requests.read == request + more
              && s.messages != [] && t.messages != [] && ReadDone(s, 0, Request) && ReadDone(t, 0, Request)
              && s.messages[0].request == request && t.messages[0].request == request + more
  {
    HeaderEndGrows(request, more);
    assert request != "" by {
      hide IdentifyBody, ParseField;
    }
    assert request[..|request|] == request && (request + more)[..|request|] == request;
    hide HeaderEnd, ParseField, IdentifyBody, Reachable, Step, Start, Fresh, ReadDone;
    FirstBodyless(request, |request|);
    FirstBodyless(request + more, |request|);
    var s := Step(Start(Fresh()), Arrived(0, request, Proceed));
    var t := Step(Start(Fresh()), Arrived(0, request + more, Proceed));
    assert s.log.requests.read <= request + more;
  }

  lemma PlainHost(more: string)
    requires |PLAIN + more| < NPOS
    ensures ParseField(PLAIN + more, "host").Value?
  {
    LowerStart();
    var start := START;
    assert PLAIN == start + CRLF;
    hide ParseField, START, PLAIN, Lower;
    assert start + CRLF + more == start + (CRLF + more);
    HostOfStart(CRLF + more);
  }

  /** Two sessions whose clients send the same bytes, a request without a body and
      something more: the one that gets them in two pieces relays the request, the one
      that gets them in one piece relays everything as one message. */
  lemma BodylessDependsOnCut(more: string)
    requires more != "" && |PLAIN + more| < NPOS
    ensures exists s, t ::
              && Reachable(s) && Reachable(t)
              && s.log.requests.read <= PLAIN + more && t.log.requests.read == PLAIN + more
              && s.messages != [] && t.messages != [] && ReadDone(s, 0, Request) && ReadDone(t, 0, Request)
              && s.messages[0].request == PLAIN && t.messages[0].request == PLAIN + more
  {
    PlainRequest();
    assert PLAIN + "" == PLAIN;
    hide *;
    PlainHost("");
    PlainHost(more);
    TwoCuts(PLAIN, more);
  }

  // ---- Content length ----

  /** The arrival of a request with more behind its header. */
  lemma FirstCounted(header: string, length: nat, more: string)
    requires HeaderEnd(header) == Some(|header|) && IdentifyBody(header) == ContentLength
    requires Declared(header) == Some(length) && ParseField(header + more, "host").Value?
    ensures var start, e := Start(Fresh()), Arrived(0, header + more, Proceed);
            && Enabled(start, e) && Reachable(Step(start, e)) && |Step(start, e).messages| == 1
            && Step(start, e).Text(Request, 0) == header + more
            && Step(start, e).pending ==
               [ReadCounted(Request, 0, 1, "", Remaining(length, |header + more|, |header|))]
  {
    var start, request := Start(Fresh()), header + more;
    HeaderEndGrows(header, more);
    assert header != "" by {
      hide IdentifyBody, ParseField, Declared;
    }
    assert "" + request == request && request[..|header|] == header;
    hide HeaderEnd, ParseField, IdentifyBody, Reachable, Declared, Find;
    FirstArrival(request, |header|);
    HeaderGoesOn(start, request, Proceed, |header|);
    ReachableStep(start, Arrived(0, request, Proceed));
    ContinuedKeeps(start, request);
    hide Start, Fresh, Step, Continued, Completing, ReadBody, Remaining;
    CountedStarts(Continued(start, request), Request, 0, 1, header, length);
  }

  lemma CountedHost(more: string)
    requires |COUNTED + more| < NPOS
    ensures ParseField(COUNTED + more, "host").Value?
  {
    LowerStart();
    var start, lines := START, LENGTH_ONE;
    assert COUNTED == start + lines;
    hide ParseField, START, COUNTED, LENGTH_ONE, Lower;
    assert start + lines + more == start + (lines + more);
    HostOfStart(lines + more);
  }

  /** A request that announces one byte and comes with more: a session reaches a read
      that no arrival will end. */
  lemma SurplusStalls(more: string)
    requires |more| > 1 && |COUNTED + more| < NPOS
    ensures exists s, h, length ::
              && Reachable(s) && s.pending != [] && s.pending[0].ReadCounted? && s.pending[0].id < |s.messages|
              && var text := s.Text(s.pending[0].dir, s.pending[0].id);
                 text == COUNTED + more && Counting(text, s.pending[0].limit, h, length) && |text| - h > length
  {
    CountedRequest();
    CountedDeclaresOne();
    HeaderEndGrows(COUNTED, more);
    CountedHost(more);
    assert (COUNTED + more)[..|COUNTED|] == COUNTED;
    hide COUNTED, HeaderEnd, ParseField, IdentifyBody, Reachable, Declared, Step, Start, Fresh, Remaining, Enabled;
    FirstCounted(COUNTED, 1, more);
    var s := Step(Start(Fresh()), Arrived(0, COUNTED + more, Proceed));
    assert Counting(s.Text(Request, 0), s.pending[0].limit, |COUNTED|, 1);
  }

  lemma CountedStarts(s: State, dir: Dir, id: nat, epoch: nat, header: string, length: nat)
    requires id < |s.messages| && !s.stopped && s.pending == []
    requires IdentifyBody(header) == ContentLength && Declared(header) == Some(length)
    ensures var t := ReadBody(s, dir, id, epoch, header);
            && t.messages == s.messages
            && t.pending == [ReadCounted(dir, id, epoch, "", Remaining(length, |s.Text(dir, id)|, |header|))]
  {
    hide IdentifyBody, Declared, MessageRead;
  }

  // ---- Chunked ----

  /** The first arrival of a chunked request. */
  lemma FirstChunked(header: string, surplus: string)
    requires HeaderEnd(header) == Some(|header|) && IdentifyBody(header) == ChunkedCoding
    requires ParseField(header + surplus, "host").Value?
    ensures var start, e := Start(Fresh()), Arrived(0, header + surplus, Proceed);
            && Enabled(start, e) && Reachable(Step(start, e)) && |Step(start, e).messages| == 1
            && Step(start, e).Text(Request, 0) == header + surplus
            && (ReadDone(Step(start, e), 0, Request) <==> Find(surplus, LAST_CHUNK, 0).Some?)
            && (!ReadDone(Step(start, e), 0, Request) ==>
                  Step(start, e).pending == [ReadChunks(Request, 0, 1, "", 0)] && !Step(start, e).failed)
  {
    HeaderEndGrows(header, surplus);
    var start, request := Start(Fresh()), header + surplus;
    assert "" + request == request;
    assert header != "" by {
      hide IdentifyBody, ParseField;
    }
    hide HeaderEnd, ParseField, IdentifyBody, Reachable, Find, Step, Start, Fresh, ReadDone, Enabled;
    FirstArrival(request, |header|);
    ChunkedAfterHeader(start, request, Proceed, header, surplus);
    ReachableStep(start, Arrived(0, request, Proceed));
  }

  lemma NextEnabled(s: State, post: string)
    requires !s.failed && |s.messages| == 1 && post != ""
    requires s.pending == [ReadChunks(Request, 0, 1, "", 0)]
    ensures Enabled(s, Arrived(0, post, Proceed))
  {
  }

  /** Both arrivals of a request whose last chunk, `pre` and `post`, is divided. */
  lemma Divided(header: string, pre: string, post: string)
    requires HeaderEnd(header) == Some(|header|) && IdentifyBody(header) == ChunkedCoding
    requires ParseField(header + pre, "host").Value?
    requires pre + post == Encode([], 0) && 0 < |post| < 5 && Find(pre, LAST_CHUNK, 0).None?
    ensures exists s ::
              && Reachable(s) && |s.messages| == 1 && s.pending != [] && s.pending[0].ReadChunks?
              && s.Text(Request, 0) + s.pending[0].body == header + Encode([], 0)
              && !ReadDone(s, 0, Request)
  {
    hide HeaderEnd, ParseField, IdentifyBody, Reachable, Encode, ReadDone, Find, Enabled, Step, Start, Fresh;
    FirstChunked(header, pre);
    var s := Step(Start(Fresh()), Arrived(0, header + pre, Proceed));
    NextEnabled(s, post);
    DividedSecond(s, header + pre, post);
    assert header + pre + post == header + (pre + post);
    var t := Step(s, Arrived(0, post, Proceed));
  }

  /** A chunked body of five bytes, two of which come with the header and three later:
      everything has arrived and the read is still waiting. */
  lemma DividedLastChunkStalls()
    ensures exists s ::
              && Reachable(s) && |s.messages| == 1 && s.pending != [] && s.pending[0].ReadChunks?
              && s.Text(Request, 0) + s.pending[0].body == IN_CHUNKS + Encode([], 0)
              && !ReadDone(s, 0, Request)
  {
    ChunkedRequest();
    LowerStart();
    LastChunkAlone();
    assert NPOS > 1000;
    hide *;
    ChunkedHost("0\r");
    Divided(IN_CHUNKS, "0\r", "\n\r\n");
  }

  lemma ChunkedHost(surplus: string)
    requires |IN_CHUNKS + surplus| < NPOS
    ensures ParseField(IN_CHUNKS + surplus, "host").Value?
  {
    ChunkedRequest();
    LowerStart();
    var coded, start := CODED, START;
    assert IN_CHUNKS == start + coded;
    hide ParseField, IdentifyBody, HeaderEnd, START, CODED, IN_CHUNKS;
    assert start + coded + surplus == start + (coded + surplus);
    HostOfStart(coded + surplus);
  }

  lemma LastChunkAlone()
    ensures Encode([], 0) == "0\r" + "\n\r\n" && |"\n\r\n"| == 3 && |"0\r"| == 2
    ensures Find("0\r", LAST_CHUNK, 0).None?
  {
  }

  /** The second arrival of that run. */
  lemma DividedSecond(s: State, text: string, post: string)
    requires Reachable(s) && |s.messages| == 1 && 0 < |post| < 5
    requires s.pending == [ReadChunks(Request, 0, 1, "", 0)] && s.Text(Request, 0) == text
    requires Enabled(s, Arrived(0, post, Proceed))
    ensures var t := Step(s, Arrived(0, post, Proceed));
            && Reachable(t) && |t.messages| == 1 && t.pending != [] && t.pending[0].ReadChunks?
            && t.Text(Request, 0) == text && t.pending[0].body == post
            && !ReadDone(t, 0, Request)
  {
    TooShort(post);
    hide *;
    assert "" + post == post;
    ChunksArrivedDone(s, post, Proceed);
    ReachableStep(s, Arrived(0, post, Proceed));
    ChunksStillPending(s, post);
  }

  lemma TooShort(text: string)
    requires |text| < 5
    ensures Find(text, LAST_CHUNK, 0).None?
  {
  }

  lemma ChunksStillPending(s: State, chunk: string)
    requires Reachable(s) && s.pending != [] && s.pending[0].ReadChunks?
    requires Enabled(s, Arrived(0, chunk, Proceed))
    requires var op := s.pending[0]; !ReadDone(Step(s, Arrived(0, chunk, Proceed)), op.id, op.dir)
    ensures var op, t := s.pending[0], Step(s, Arrived(0, chunk, Proceed));
            && t.messages == s.messages && t.Text(op.dir, op.id) == s.Text(op.dir, op.id)
            && t.pending != [] && t.pending[0].ReadChunks? && t.pending[0].body == op.body + chunk
  {
    ChunksArrivedDone(s, chunk, Proceed);
    ReachableFrames(s);
    hide Reachable, Find, PartialSearch, Searched, Frames, Base, BodyRead, ReadDone;
    var op := s.pending[0];
    ResumedScanIsFullSearch(op.body, chunk, LAST_CHUNK, op.pos);
  }

  /** The arrival of a request and the `part` of its body that contains the pattern. */
  lemma CutShort(header: string, part: string, rest: string)
    requires HeaderEnd(header) == Some(|header|) && IdentifyBody(header) == ChunkedCoding
    requires ParseField(header + part, "host").Value? && Find(part, LAST_CHUNK, 0).Some? && rest != ""
    ensures exists t ::
              && Reachable(t) && |t.messages| == 1 && ReadDone(t, 0, Request)
              && t.messages[0].request < header + (part + rest)
              && |t.messages[0].request| == |header + (part + rest)| - |rest|
  {
    hide HeaderEnd, ParseField, IdentifyBody, Reachable, ReadDone, Find, Enabled, Step, Start, Fresh;
    FirstChunked(header, part);
    var t := Step(Start(Fresh()), Arrived(0, header + part, Proceed));
    assert header + part + rest == header + (part + rest);
    assert t.messages[0].request == header + part;
  }

  /** A well-formed chunked body whose only chunk contains the pattern: the message ends
      inside the chunk, seven bytes short. */
  lemma HiddenPatternCutsShort()
    ensures exists t ::
              && Reachable(t) && |t.messages| == 1 && ReadDone(t, 0, Request)
              && t.messages[0].request < IN_CHUNKS + Encode([EARLY], 0)
              && |t.messages[0].request| == |IN_CHUNKS + Encode([EARLY], 0)| - 7
  {
    ChunkedRequest();
    assert NPOS > 1000;
    hide *;
    EarlyBody();
    EarlyIsFound();
    ChunkedHost(EARLY_PART);
    CutShort(IN_CHUNKS, EARLY_PART, EARLY_REST);
  }

  lemma LastChunkFound(more: string)
    ensures Encode([], 0) == LAST_CHUNK && Find(LAST_CHUNK, LAST_CHUNK, 0).Some?
    ensures Find(LAST_CHUNK + more, LAST_CHUNK, 0).Some?
  {
    assert Encode([], 0) == LAST_CHUNK;
    assert Matches(LAST_CHUNK, LAST_CHUNK, 0);
    FoundAt(LAST_CHUNK, 0);
    FindAppend(LAST_CHUNK, more, LAST_CHUNK, 0);
  }

  lemma TwoChunkedCuts(header: string, body: string, more: string)
    requires HeaderEnd(header) == Some(|header|) && IdentifyBody(header) == ChunkedCoding
    requires ParseField(header + body, "host").Value? && ParseField(header + (body + more), "host").Value?
    requires Find(body, LAST_CHUNK, 0).Some? && Find(body + more, LAST_CHUNK, 0).Some?
    ensures exists s, t ::
              && Reachable(s) && Reachable(t) && |s.messages| == 1 && |t.messages| == 1
              && s.log.requests.read == header + body && t.log.requests.read == header + body + more
              && ReadDone(s, 0, Request) && ReadDone(t, 0, Request)
              && s.messages[0].request == header + body && t.messages[0].request == header + body + more
  {
    hide HeaderEnd, ParseField, IdentifyBody, Reachable, ReadDone, Find, Enabled, Step, Start, Fresh;
    FirstChunked(header, body);
    FirstChunked(header, body + more);
    var s := Step(Start(Fresh()), Arrived(0, header + body, Proceed));
    var t := Step(Start(Fresh()), Arrived(0, header + (body + more), Proceed));
    assert header + body + more == header + (body + more);
    ReadIsFirstMessage(s);
    ReadIsFirstMessage(t);
    assert s.messages[0].request == header + body && t.messages[0].request == header + (body + more);
  }

  /** The same with a chunked body: what comes in one piece with its end is taken into the
      message, what comes later is not. */
  lemma ChunkedDependsOnCut(more: string)
    requires more != "" && |IN_CHUNKS + LAST_CHUNK + more| < NPOS
    ensures exists s, t ::
              && Reachable(s) && Reachable(t) && |s.messages| == 1 && |t.messages| == 1
              && s.log.requests.read == IN_CHUNKS + Encode([], 0)
              && t.log.requests.read == IN_CHUNKS + Encode([], 0) + more
              && ReadDone(s, 0, Request) && ReadDone(t, 0, Request)
              && s.messages[0].request == IN_CHUNKS + Encode([], 0)
              && t.messages[0].request == IN_CHUNKS + Encode([], 0) + more
  {
    ChunkedRequest();
    LastChunkFound(more);
    assert |LAST_CHUNK| == 5;
    hide *;
    ChunkedHost(LAST_CHUNK);
    ChunkedHost(LAST_CHUNK + more);
    TwoChunkedCuts(IN_CHUNKS, LAST_CHUNK, more);
  }
}
