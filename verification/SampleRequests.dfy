/** Three requests, and what the proxy reads in them. */
module SampleRequests {
  import opened Search
  import opened Http
  import opened Relay
  import opened RelayFraming

  /** The first two lines of every request here, and what follows them. */
  const START: string := "GET / HTTP/1.1\r\nHost:a\r\n"
  const LOW_START: string := "get / http/1.1\r\nhost:a\r\n"
  const LENGTH_ONE: string := "Content-Length:1\r\n\r\n"
  const LOW_LENGTH_ONE: string := "content-length:1\r\n\r\n"
  const CODED: string := "Transfer-Encoding:chunked\r\n\r\n"
  const LOW_CODED: string := "transfer-encoding:chunked\r\n\r\n"
  const PLAIN: string := START + CRLF
  const COUNTED: string := START + LENGTH_ONE
  const IN_CHUNKS: string := START + CODED

  // ---- Reading the requests ----

  lemma MatchesAt(text: string, pat: string, at: nat)
    requires at + |pat| <= |text| && text[at..at + |pat|] == pat
    ensures Matches(text, pat, at)
  {
  }

  /** Three characters are enough to tell where a pattern is not. */
  lemma FindByThree(text: string, pat: string, at: nat)
    requires |pat| >= 3 && Matches(text, pat, at)
    requires forall j: nat :: j < at ==> text[j] != pat[0] || text[j + 1] != pat[1] || text[j + 2] != pat[2]
    ensures Find(text, pat, 0) == Some(at)
  {
    forall j: nat | j < at ensures !Matches(text, pat, j) {
      MatchesPointwise(text, pat, j);
      assert text[j + 0] != pat[0] || text[j + 1] != pat[1] || text[j + 2] != pat[2];
    }
    FindIs(text, pat, 0, at);
  }

  lemma FindNowhere(text: string, pat: string)
    requires |pat| >= 3
    requires forall j: nat :: j + 2 < |text| ==> text[j] != pat[0] || text[j + 1] != pat[1] || text[j + 2] != pat[2]
    ensures Find(text, pat, 0).None?
  {
    forall j: nat ensures !Matches(text, pat, j) {
      MatchesPointwise(text, pat, j);
      if j + |pat| <= |text| {
        assert text[j + 0] != pat[0] || text[j + 1] != pat[1] || text[j + 2] != pat[2];
      }
    }
  }

  lemma LowerStart()
    ensures |START| == 24 && |LOW_START| == 24 && Lower(START) == LOW_START
  {
    var low := "get / http/1.1\r\nhost:a\r\n";
    assert |low| == 24;
    assert Lower(START) == low;
  }

  lemma LowerLengthOne()
    ensures |LENGTH_ONE| == 20 && Lower(LENGTH_ONE) == LOW_LENGTH_ONE && |LOW_LENGTH_ONE| == 20
  {
    assert Lower(LENGTH_ONE) == LOW_LENGTH_ONE;
  }

  lemma LowerCoded()
    ensures |CODED| == 29 && Lower(CODED) == LOW_CODED && |LOW_CODED| == 29
  {
    assert Lower(CODED) == LOW_CODED;
  }

  /** A pattern that cannot begin in the first part is looked for in the second. */
  lemma FindBehindStart(start: string, rest: string, pat: string)
    requires forall j: nat :: j < |start| ==> !Matches(start + rest, pat, j)
    ensures Find(start + rest, pat, 0) ==
            match Find(rest, pat, 0) case Some(at) => Some(|start| + at) case None => None
  {
    FindShift(start, rest, pat, 0);
    hide Matches;
    var r := Find(start + rest, pat, |start| + 0);
    if r.Some? {
      FindIs(start + rest, pat, 0, r.value);
    } else {
      forall j: nat ensures !Matches(start + rest, pat, j) {
      }
    }
  }

  lemma NoKeywordInStart()
    ensures 'c' !in LOW_START
  {
  }

  lemma KeywordBehindStart(rest: string, pat: string)
    requires pat != "" && pat[0] == 'c'
    ensures Find(Lower(START + rest), pat, 0) ==
            match Find(Lower(rest), pat, 0) case Some(at) => Some(24 + at) case None => None
  {
    LowerStart();
    LowerConcat(START, rest);
    NoKeywordInStart();
    hide *;
    forall j: nat | j < 24 ensures !Matches(LOW_START + Lower(rest), pat, j) {
      MatchesPointwise(LOW_START + Lower(rest), pat, j);
      assert LOW_START[j] in LOW_START;
      assert (LOW_START + Lower(rest))[j + 0] == LOW_START[j];
    }
    FindBehindStart(LOW_START, Lower(rest), pat);
  }

  lemma LinesOfStart(j: nat)
    requires j < 24
    ensures |START| == 24
    ensures START[j] == '\r' && j < 22 ==> START[j + 1] == '\n' && START[j + 2] != '\r'
    ensures j == 23 ==> START[j] == '\n'
  {
  }

  lemma BlankLineAt(text: string, j: nat)
    requires Matches(text, HEADER_END, j)
    ensures j + 4 <= |text| && text[j] == '\r' && text[j + 2] == '\r'
  {
    assert text[j..j + 4][0] == '\r' && text[j..j + 4][2] == '\r';
  }

  lemma HeaderEndBehindStart(rest: string)
    requires rest != "" && rest[0] != '\r'
    ensures HeaderEnd(START + rest) == match HeaderEnd(rest) case Some(h) => Some(24 + h) case None => None
  {
    LowerStart();
    hide Find, Lower, Matches, START;
    var all := START + rest;
    forall j: nat | j < 24 ensures !Matches(all, HEADER_END, j) {
      LinesOfStart(j);
      if Matches(all, HEADER_END, j) {
        BlankLineAt(all, j);
      }
    }
    FindBehindStart(START, rest, HEADER_END);
  }

  // ---- The host ----

  lemma HostInStart()
    ensures Lower("host") == "host" && Find(LOW_START, "host", 0) == Some(16)
  {
    assert Lower("host") == "host";
    var low := "get / http/1.1\r\nhost:a\r\n";
    assert |low| == 24 && low == LOW_START;
    hide *;
    MatchesAt(low, "host", 16);
    FindByThree(low, "host", 16);
  }

  const BEFORE_HOST: string := "GET / HTTP/1.1\r\nHost:"

  lemma StartParts()
    ensures START == BEFORE_HOST + "a" + CRLF && |BEFORE_HOST| == 21 && |START| == 24
  {
  }

  lemma HostGroups(rest: string)
    ensures BEFORE_HOST + "a" + CRLF + rest == BEFORE_HOST + (Spaces(0) + "a" + CRLF + rest)
  {
    var pad, pre := Spaces(0), BEFORE_HOST;
    assert pad == "";
    hide *;
    assert pad + "a" == "a";
    assert pre + "a" + CRLF + rest == pre + ("a" + CRLF + rest);
  }

  /** Whatever follows these two lines, the host is read. */
  lemma HostOfStart(rest: string)
    requires |START + rest| < NPOS
    ensures ParseField(START + rest, "host") == Value("a")
  {
    assert Lower("a") == "a";
    hide *;
    LowerStart();
    HostInStart();
    StartParts();
    HostGroups(rest);
    LowerConcat(START, rest);
    FindAppend(LOW_START, Lower(rest), "host", 0);
    ParseFieldLine(START + rest, "host", BEFORE_HOST, 0, "a", rest);
  }

  // ---- No body ----

  lemma PlainEnd()
    ensures |PLAIN| == 26 && Matches(PLAIN, HEADER_END, 22)
  {
    StartParts();
    var front := BEFORE_HOST + "a";
    hide START, BEFORE_HOST;
    assert PLAIN == front + (CRLF + CRLF) && CRLF + CRLF == HEADER_END;
  }

  lemma EndOfPlain()
    ensures |PLAIN| == 26 && HeaderEnd(PLAIN) == Some(|PLAIN|)
  {
    StartParts();
    var all := PLAIN;
    PlainEnd();
    hide Find, Lower, Matches, START;
    forall j: nat | j < 22 ensures !Matches(all, HEADER_END, j) {
      LinesOfStart(j);
      if Matches(all, HEADER_END, j) {
        BlankLineAt(all, j);
      }
    }
    FindIs(all, HEADER_END, 0, 22);
  }

  lemma PlainRequest()
    ensures |PLAIN| == 26 && HeaderEnd(PLAIN) == Some(|PLAIN|) && IdentifyBody(PLAIN) == NoBody
  {
    EndOfPlain();
    KeywordBehindStart(CRLF, "content-length");
    KeywordBehindStart(CRLF, "chunked");
    hide Lower, IdentifyBody, START;
    IdentifyBodyExactly(PLAIN);
  }

  // ---- Content length ----

  lemma LengthOneLine()
    ensures LENGTH_ONE[0] == 'C' && HeaderEnd(LENGTH_ONE) == Some(20)
  {
    var lines := LENGTH_ONE;
    assert lines == "Content-Length:1\r\n\r\n" && |lines| == 20;
    hide Find, Matches;
    MatchesAt(lines, HEADER_END, 16);
    FindByThree(lines, HEADER_END, 16);
  }

  lemma LengthInFront()
    ensures Find(LOW_LENGTH_ONE, "content-length", 0) == Some(0)
  {
    assert LOW_LENGTH_ONE == "content-length" + ":1\r\n\r\n";
    MatchesAt("content-length", "content-length", 0);
    hide *;
    MatchesPrefix("content-length", ":1\r\n\r\n", "content-length", 0);
    FindIs(LOW_LENGTH_ONE, "content-length", 0, 0);
  }

  lemma CountedRequest()
    ensures |COUNTED| == 44 && HeaderEnd(COUNTED) == Some(|COUNTED|) && IdentifyBody(COUNTED) == ContentLength
    ensures Find(Lower(COUNTED), "content-length", 0) == Some(24)
  {
    LowerStart();
    LowerLengthOne();
    LengthOneLine();
    LengthInFront();
    HeaderEndBehindStart(LENGTH_ONE);
    hide Find, HeaderEnd, Lower, IdentifyBody, START, LENGTH_ONE, LOW_LENGTH_ONE;
    KeywordBehindStart(LENGTH_ONE, "content-length");
    IdentifyBodyExactly(COUNTED);
  }

  lemma StoulOne()
    ensures Stoul("1") == Some(1)
  {
    assert "1"[1..] == "";
    assert LeadingNumber("1", 0) == LeadingNumber("", 1);
  }

  lemma LengthOneParts()
    ensures LENGTH_ONE == "Content-Length:" + "1" + CRLF + CRLF && |"Content-Length:"| == 15
  {
  }

  lemma LengthOneGroups(name: string)
    ensures START + (name + "1" + CRLF + CRLF) == (START + name) + (Spaces(0) + "1" + CRLF + CRLF)
  {
    var pad, start := Spaces(0), START;
    assert pad == "";
    hide *;
    assert pad + "1" == "1";
    assert start + (name + "1" + CRLF + CRLF) == (start + name) + ("1" + CRLF + CRLF);
  }

  lemma CountedDeclaresOne()
    ensures Declared(COUNTED) == Some(1)
  {
    CountedRequest();
    LowerKeywords();
    StoulOne();
    LowerStart();
    LengthOneParts();
    LengthOneGroups("Content-Length:");
    assert Lower("1") == "1";
    hide Find, Lower, ParseField, IdentifyBody, START, LENGTH_ONE, Stoul, HeaderEnd, Spaces;
    ParseFieldLine(COUNTED, "content-length", START + "Content-Length:", 0, "1", CRLF);
  }

  // ---- Chunked ----

  lemma CodedEnd()
    ensures CODED[0] == 'T' && HeaderEnd(CODED) == Some(29)
  {
    var lines := CODED;
    assert lines == "Transfer-Encoding:chunked\r\n\r\n" && |lines| == 29;
    hide Find, Matches;
    MatchesAt(lines, HEADER_END, 25);
    FindByThree(lines, HEADER_END, 25);
  }

  lemma CodedHasNoLength()
    ensures Find(LOW_CODED, "content-length", 0).None?
  {
    var low := LOW_CODED;
    assert low == "transfer-encoding:chunked\r\n\r\n" && |low| == 29;
    hide *;
    FindNowhere(low, "content-length");
  }

  lemma LowCodedParts()
    ensures LOW_CODED == "transfer-encoding:" + ("chunked" + HEADER_END)
  {
    var low := LOW_CODED;
    assert low == "transfer-encoding:chunked\r\n\r\n";
    var end := HEADER_END;
    assert end == "\r\n\r\n";
    hide *;
    assert low == "transfer-encoding:" + ("chunked" + end);
  }

  lemma CodedIsChunked()
    ensures Find(LOW_CODED, "chunked", 0).Some?
  {
    LowCodedParts();
    MatchesAt("chunked", "chunked", 0);
    hide *;
    MatchesPrefix("chunked", HEADER_END, "chunked", 0);
    MatchesInside("transfer-encoding:", "chunked" + HEADER_END, "chunked", 0);
    var r := Find(LOW_CODED, "chunked", 0);
  }

  lemma ChunkedRequest()
    ensures |IN_CHUNKS| == 53 && HeaderEnd(IN_CHUNKS) == Some(|IN_CHUNKS|) && IdentifyBody(IN_CHUNKS) == ChunkedCoding
  {
    LowerStart();
    LowerCoded();
    CodedEnd();
    CodedHasNoLength();
    CodedIsChunked();
    HeaderEndBehindStart(CODED);
    hide Find, HeaderEnd, Lower, IdentifyBody, START, CODED, LOW_CODED;
    KeywordBehindStart(CODED, "content-length");
    KeywordBehindStart(CODED, "chunked");
    IdentifyBodyExactly(IN_CHUNKS);
  }
}
