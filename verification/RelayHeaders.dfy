/** What the fields of a header do: the routing and the length of a message that
    starts with a rendered header. */
module RelayHeaders {
  import opened Search
  import opened Http
  import opened Relay
  import opened RelayFraming
  import opened RelayLink

  /** The message starts with this header, which ends at its first blank line, and the
      first mention of `name` in it is field `k`, whose value has no space and no line end. */
  ghost predicate Announces(message: string, startLine: string, fields: seq<Field>, k: nat, name: string) {
    && var header := Render(startLine, fields);
    && header <= message && HeaderEnd(message) == Some(|header|)
    && k < |fields| && Lower(fields[k].name) == Lower(name)
    && ' ' !in fields[k].value && '\n' !in fields[k].value
    && Find(Lower(header), Lower(name), 0) == Some(FieldOffset(startLine, fields, k))
  }

  lemma LineEndBehind(low: string, pre: string, line: string, rest: string)
    requires low == pre + (line + CRLF + rest) && '\n' !in line
    ensures |pre| <= |low| && Find(low[|pre|..], CRLF, 0).Some?
  {
    hide Find;
    assert low[|pre|..] == line + CRLF + rest;
    CrlfBehind(line, rest);
  }

  lemma CrlfBehind(line: string, rest: string)
    ensures Find(line + CRLF + rest, CRLF, 0).Some?
  {
    var all := line + CRLF + rest;
    assert all[|line|..|line| + 2] == CRLF;
    assert Matches(all, CRLF, |line|);
    hide Matches;
    var r := Find(all, CRLF, 0);
  }

  /** The line of the field ends inside the header. */
  lemma FieldLineEnds(startLine: string, fields: seq<Field>, k: nat)
    requires k < |fields| && '\n' !in fields[k].value
    ensures var low := Lower(Render(startLine, fields));
            var begin := FieldOffset(startLine, fields, k) + |fields[k].name| + 1;
            begin <= |low| && Find(low[begin..], CRLF, 0).Some?
  {
    var f := fields[k];
    var before, after := RenderFields(fields[..k]), RenderFields(fields[k + 1..]);
    RenderAround(startLine, fields, k);
    var pre, line, rest := startLine + CRLF + before + f.name + ":", Spaces(f.padding) + f.value, after + CRLF;
    assert |pre| == FieldOffset(startLine, fields, k) + |f.name| + 1;
    hide Find, Render, RenderFields, Spaces, FieldOffset;
    LowerParts(pre, line, rest);
    LowerNoNewline(line);
    LineEndBehind(Lower(pre + (line + CRLF + rest)), Lower(pre), Lower(line), Lower(rest));
  }

  lemma LowerParts(pre: string, line: string, rest: string)
    ensures Lower(pre + (line + CRLF + rest)) == Lower(pre) + (Lower(line) + CRLF + Lower(rest))
  {
    assert Lower(CRLF) == CRLF;
    hide Lower;
    LowerConcat(pre, line + CRLF + rest);
    LowerConcat(line + CRLF, rest);
    LowerConcat(line, CRLF);
  }

  /** `parse_field` reads the announced value in the header and in the whole message. */
  lemma AnnouncedValue(message: string, startLine: string, fields: seq<Field>, k: nat, name: string)
    requires Announces(message, startLine, fields, k, name) && |message| < NPOS && |name| < NPOS
    ensures var header := Render(startLine, fields);
            && |name| == |fields[k].name|
            && ParseField(header, name) == Value(Lower(fields[k].value))
            && ParseField(message, name) == Value(Lower(fields[k].value))
  {
    hide Find, ParseField, Render, RenderFields, FieldOffset, HeaderEnd;
    var header := Render(startLine, fields);
    var more := message[|header|..];
    assert message == header + more;
    assert |Lower(name)| == |name| && |Lower(fields[k].name)| == |fields[k].name|;
    ParseFieldRoundTrip(startLine, fields, k, name);
    FieldLineEnds(startLine, fields, k);
    hide Lower;
    ParseFieldStable(header, more, name);
  }

  /** Routing by the Host line: a request that starts with a rendered header whose first
      mention of the name is its Host field was written over a connection to that host. */
  lemma RoutedByHostLine(s: State, i: nat, startLine: string, fields: seq<Field>, k: nat)
    requires Reachable(s) && i < |s.log.via|
    requires i < |s.messages| && |s.messages[i].request| < NPOS
    requires Announces(s.messages[i].request, startLine, fields, k, "host")
    ensures s.log.via[i].Some? && s.log.via[i].value.host == Lower(fields[k].value)
  {
    hide Reachable, HostOf, Announces, ParseField;
    RequestsReachTheirHost(s, i);
    AnnouncedHost(s.messages[i].request, s.log.hosts[i], startLine, fields, k);
  }

  lemma AnnouncedHost(request: string, host: string, startLine: string, fields: seq<Field>, k: nat)
    requires HostOf(request, host) && |request| < NPOS
    requires Announces(request, startLine, fields, k, "host")
    ensures host == Lower(fields[k].value)
  {
    hide HostOf, ParseField, Find, Render, RenderFields, FieldOffset, HeaderEnd;
    AnnouncedValue(request, startLine, fields, k, "host");
    FieldLineEnds(startLine, fields, k);
    LowerHost();
    assert request[..|Render(startLine, fields)|] == Render(startLine, fields);
    hide Lower;
    RoutedByOwnField(request, host);
  }

  lemma DecimalIsPlain(n: nat)
    ensures ' ' !in Decimal(n) && '\n' !in Decimal(n) && Lower(Decimal(n)) == Decimal(n)
  {
    DecimalReadsBack(n);
    hide Decimal;
    assert forall i :: 0 <= i < |Decimal(n)| ==> IsDigit(Decimal(n)[i]);
  }

  /** Framing by the Content-Length line: a message that was read to its end, and starts
      with a rendered header whose first mention of the name is a Content-Length field with
      the value `n`, is that header and `n` bytes. */
  lemma LengthByContentLengthLine(s: State, i: nat, dir: Dir, startLine: string, fields: seq<Field>, k: nat, n: nat)
    requires Reachable(s) && i < |s.messages| && ReadDone(s, i, dir) && |s.Text(dir, i)| < NPOS
    requires Announces(s.Text(dir, i), startLine, fields, k, "content-length") && fields[k].value == Decimal(n)
    ensures |s.Text(dir, i)| == |Render(startLine, fields)| + n
  {
    hide Reachable, Announces, Framed, Decimal, ReadDone;
    CompletedMessagesAreFramed(s, i, dir);
    AnnouncedLength(s.Text(dir, i), s.log.Heads(dir)[i], startLine, fields, k, n);
  }

  lemma AnnouncedLength(message: string, head: nat, startLine: string, fields: seq<Field>, k: nat, n: nat)
    requires Framed(message, head) && |message| < NPOS
    requires Announces(message, startLine, fields, k, "content-length") && fields[k].value == Decimal(n)
    ensures |message| == |Render(startLine, fields)| + n
  {
    var header := Render(startLine, fields);
    DecimalIsPlain(n);
    hide Find, ParseField, Render, RenderFields, FieldOffset, HeaderEnd, IdentifyBody, Decimal, Framed, Stoul;
    AnnouncedValue(message, startLine, fields, k, "content-length");
    StoulRoundTrip(n);
    LowerKeywords();
    IdentifyBodyExactly(header);
    assert message[..|header|] == header;
    CountedMessageLength(message, head, |header|);
  }
}
