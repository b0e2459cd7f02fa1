/** What a message is made of, and whether it depends on how TCP cuts the byte stream. */
module RelayFragments {
  import opened Search
  import opened Http
  import opened Relay
  import opened RelayFlow
  import opened RelayFraming

  /** The message starts with a header of this kind. */
  ghost predicate HasKind(message: string, kind: Body) {
    HeaderEnd(message).Some? && HeaderEnd(message).value <= |message| &&
    IdentifyBody(message[..HeaderEnd(message).value]) == kind
  }

  lemma FramedHasEnd(message: string, head: nat)
    requires Framed(message, head)
    ensures HeaderEnd(message).Some? && HeaderEnd(message).value <= head <= |message|
  {
  }

  lemma SameKind(m: string, more: string, head: nat, kind: Body)
    requires Framed(m, head)
    ensures HasKind(m, kind) == HasKind(m + more, kind)
  {
    FramedHasEnd(m, head);
    HeaderEndGrows(m, more);
    hide HeaderEnd, IdentifyBody, Framed;
  }

  lemma SamePrefixes(a: string, b: string, stream: string)
    requires a <= stream && b <= stream
    ensures |a| <= |b| ==> b == a + b[|a|..]
    ensures |b| <= |a| ==> a == b + a[|b|..]
    ensures |a| == |b| ==> a == b
  {
  }

  // ---- Content length: independent of the cut ----

  /** One message framed by length is determined by the bytes it starts with. */
  lemma SameStartSameMessage(m: string, head: nat, more: string, head': nat)
    requires Framed(m, head) && Framed(m + more, head') && |m + more| < SIZE_MOD
    requires HasKind(m, ContentLength) || HasKind(m + more, ContentLength)
    ensures more == ""
  {
    SameKind(m, more, head, ContentLength);
    FramedHasEnd(m, head);
    HeaderEndGrows(m, more);
    var h := HeaderEnd(m).value;
    hide HeaderEnd, IdentifyBody, Declared, Framed;
    CountedMessageLength(m, head, h);
    CountedMessageLength(m + more, head', h);
  }

  lemma SameMessage(before: string, m: string, head: nat, n: string, head': nat, stream: string)
    requires before + m <= stream && before + n <= stream && |stream| < SIZE_MOD
    requires Framed(m, head) && Framed(n, head') && HasKind(m, ContentLength)
    ensures m == n
  {
    hide Framed, HasKind;
    var rest := stream[|before|..];
    assert m <= rest && n <= rest;
    SamePrefixes(m, n, rest);
    if |m| <= |n| {
      SameStartSameMessage(m, head, n[|m|..], head');
    } else {
      SameStartSameMessage(n, head', m[|n|..], head);
    }
  }

  lemma TextsPrefix(messages: seq<Exchange>, dir: Dir, k: nat)
    requires k <= |messages|
    ensures Texts(messages[..k], dir) <= Texts(messages, dir)
  {
    if k < |messages| {
      var front := messages[..|messages| - 1];
      assert front[..k] == messages[..k];
      TextsPrefix(front, dir, k);
    } else {
      assert messages[..k] == messages;
    }
  }

  lemma TextsStep(messages: seq<Exchange>, dir: Dir, k: nat)
    requires 0 < k <= |messages|
    ensures Texts(messages[..k], dir) == Texts(messages[..k - 1], dir) + TextOf(messages[k - 1], dir)
  {
    assert messages[..k][..k - 1] == messages[..k - 1];
  }

  /** A message and those before it are a prefix of what was read. */
  lemma ReadSoFar(s: State, dir: Dir, stream: string, i: nat)
    requires Reachable(s) && i < |s.messages| && s.log.FlowOf(dir).read <= stream
    ensures Texts(s.messages[..i], dir) + s.Text(dir, i) <= stream
  {
    hide Reachable, Texts;
    ReachableFlow(s, dir);
    TextsPrefix(s.messages, dir, i + 1);
    TextsStep(s.messages, dir, i + 1);
  }

  lemma SameTexts(ms: seq<Exchange>, ns: seq<Exchange>, dir: Dir, k: nat)
    requires k <= |ms| && k <= |ns| && forall j :: 0 <= j < k ==> TextOf(ms[j], dir) == TextOf(ns[j], dir)
    ensures Texts(ms[..k], dir) == Texts(ns[..k], dir)
  {
    if k > 0 {
      SameTexts(ms, ns, dir, k - 1);
      TextsStep(ms, dir, k);
      TextsStep(ns, dir, k);
    }
  }

  /** Two runs over the same byte stream, both of which have read message `i`. */
  ghost predicate BothRead(s: State, t: State, dir: Dir, stream: string, i: nat) {
    && Reachable(s) && Reachable(t)
    && s.log.FlowOf(dir).read <= stream && t.log.FlowOf(dir).read <= stream
    && i < |s.messages| && i < |t.messages| && ReadDone(s, i, dir) && ReadDone(t, i, dir)
  }

  /** They agree on the messages before `i`. */
  ghost predicate AgreeBefore(s: State, t: State, dir: Dir, i: nat)
    requires i <= |s.messages| && i <= |t.messages|
  {
    forall j: nat :: j < i ==> s.Text(dir, j) == t.Text(dir, j)
  }

  lemma CommonStart(s: State, t: State, dir: Dir, stream: string, i: nat)
    requires BothRead(s, t, dir, stream, i) && AgreeBefore(s, t, dir, i)
    ensures var before := Texts(s.messages[..i], dir);
            before + s.Text(dir, i) <= stream && before + t.Text(dir, i) <= stream
  {
    hide Reachable, Texts;
    forall j | 0 <= j < i ensures TextOf(s.messages[j], dir) == TextOf(t.messages[j], dir) {
      assert s.Text(dir, j) == t.Text(dir, j);
    }
    SameTexts(s.messages, t.messages, dir, i);
    ReadSoFar(s, dir, stream, i);
    ReadSoFar(t, dir, stream, i);
  }

  /** A message with a content length is cut the same by two runs over one stream that
      agree on the messages before it. */
  lemma CountedAgree(s: State, t: State, dir: Dir, stream: string, i: nat)
    requires BothRead(s, t, dir, stream, i) && |stream| < SIZE_MOD && AgreeBefore(s, t, dir, i)
    requires HasKind(s.Text(dir, i), ContentLength)
    ensures s.Text(dir, i) == t.Text(dir, i)
  {
    hide Reachable, Framed, HasKind, Texts;
    CompletedMessagesAreFramed(s, i, dir);
    CompletedMessagesAreFramed(t, i, dir);
    CommonStart(s, t, dir, stream, i);
    SameMessage(Texts(s.messages[..i], dir), s.Text(dir, i), s.log.Heads(dir)[i],
                t.Text(dir, i), t.log.Heads(dir)[i], stream);
  }

  lemma BothReadEarlier(s: State, t: State, dir: Dir, stream: string, i: nat, j: nat)
    requires BothRead(s, t, dir, stream, i) && j <= i
    ensures BothRead(s, t, dir, stream, j)
  {
    hide Reachable;
  }

  // ---- No body, and chunked: exactly how the cut shows ----

  /** Messages over one stream that start together agree exactly if as many bytes had
      arrived when their reads ended, and their headers then announce the same. */
  lemma AgreeByLength(s: State, t: State, dir: Dir, stream: string, i: nat)
    requires BothRead(s, t, dir, stream, i) && AgreeBefore(s, t, dir, i)
    ensures s.Text(dir, i) == t.Text(dir, i) <==> |s.Text(dir, i)| == |t.Text(dir, i)|
    ensures forall kind :: HasKind(s.Text(dir, i), kind) == HasKind(t.Text(dir, i), kind)
    ensures HeaderEnd(s.Text(dir, i)) == HeaderEnd(t.Text(dir, i))
  {
    hide Reachable, Framed, HasKind, HeaderEnd, Texts;
    CommonStart(s, t, dir, stream, i);
    CompletedMessagesAreFramed(s, i, dir);
    CompletedMessagesAreFramed(t, i, dir);
    var before, m, n := Texts(s.messages[..i], dir), s.Text(dir, i), t.Text(dir, i);
    var rest := stream[|before|..];
    assert m <= rest && n <= rest;
    SamePrefixes(m, n, rest);
    if |m| <= |n| {
      SameHeader(m, s.log.Heads(dir)[i], n[|m|..]);
    } else {
      SameHeader(n, t.log.Heads(dir)[i], m[|n|..]);
    }
  }

  lemma SameHeader(m: string, head: nat, more: string)
    requires Framed(m, head)
    ensures forall kind :: HasKind(m, kind) == HasKind(m + more, kind)
    ensures HeaderEnd(m) == HeaderEnd(m + more)
  {
    hide HasKind;
    forall kind ensures HasKind(m, kind) == HasKind(m + more, kind) {
      SameKind(m, more, head, kind);
    }
    FramedHasEnd(m, head);
    HeaderEndGrows(m, more);
  }

  /** A message without a body is what had arrived when its header was complete; so two
      runs agree on it if and only if as many bytes had arrived at that moment. */
  lemma BodylessAgreeExactly(s: State, t: State, dir: Dir, stream: string, i: nat)
    requires BothRead(s, t, dir, stream, i) && AgreeBefore(s, t, dir, i)
    requires HasKind(s.Text(dir, i), NoBody)
    ensures i < |s.log.Heads(dir)| && i < |t.log.Heads(dir)|
    ensures s.Text(dir, i) == t.Text(dir, i) <==> s.log.Heads(dir)[i] == t.log.Heads(dir)[i]
  {
    hide Reachable, HeaderEnd, IdentifyBody;
    AgreeByLength(s, t, dir, stream, i);
    CompletedMessagesAreFramed(s, i, dir);
    CompletedMessagesAreFramed(t, i, dir);
    assert HasKind(t.Text(dir, i), NoBody);
  }

  /** The last chunk came along with the header. */
  ghost predicate EndedWithHead(message: string, head: nat)
    requires head <= |message|
  {
    HeaderEnd(message).Some? && Find(message[..head], LAST_CHUNK, HeaderEnd(message).value).Some?
  }

  /** The bytes that came after the last chunk with the arrival that completed it. */
  ghost function Beyond(message: string, head: nat): int
    requires head <= |message| && Find(message[head..], LAST_CHUNK, 0).Some?
  {
    |message| - (head + Find(message[head..], LAST_CHUNK, 0).value + |LAST_CHUNK|)
  }

  /** A chunked message is what had arrived when its read ended. Two runs agree on it if
      and only if as many bytes had arrived then: that is at the header in both, if the
      last chunk came along with it; and if the headers were complete after as many
      bytes, but without the last chunk, it is so exactly when the arrivals that
      completed the last chunk brought as much beyond it. */
  lemma ChunkedAgreeExactly(s: State, t: State, dir: Dir, stream: string, i: nat)
    requires BothRead(s, t, dir, stream, i) && AgreeBefore(s, t, dir, i)
    requires HasKind(s.Text(dir, i), ChunkedCoding)
    ensures i < |s.log.Heads(dir)| && i < |t.log.Heads(dir)|
    ensures s.log.Heads(dir)[i] <= |s.Text(dir, i)| && t.log.Heads(dir)[i] <= |t.Text(dir, i)|
    ensures var m, n, p, q := s.Text(dir, i), t.Text(dir, i), s.log.Heads(dir)[i], t.log.Heads(dir)[i];
            && (m == n <==> |m| == |n|)
            && (EndedWithHead(m, p) && EndedWithHead(n, q) ==> (m == n <==> p == q))
            && (p == q ==> (EndedWithHead(m, p) <==> EndedWithHead(n, q)))
            && (p == q && !EndedWithHead(m, p) ==>
                  && Find(m[p..], LAST_CHUNK, 0).Some? && Find(n[q..], LAST_CHUNK, 0).Some?
                  && (m == n <==> Beyond(m, p) == Beyond(n, q)))
  {
    hide Reachable, HeaderEnd, IdentifyBody, Find, Texts;
    AgreeByLength(s, t, dir, stream, i);
    CommonStart(s, t, dir, stream, i);
    CompletedMessagesAreFramed(s, i, dir);
    CompletedMessagesAreFramed(t, i, dir);
    var m, n, p, q := s.Text(dir, i), t.Text(dir, i), s.log.Heads(dir)[i], t.log.Heads(dir)[i];
    assert HasKind(n, ChunkedCoding);
    var before := Texts(s.messages[..i], dir);
    var rest := stream[|before|..];
    assert m <= rest && n <= rest;
    SamePrefixes(m, n, rest);
    if p == q {
      assert m[..p] == rest[..p] == n[..q];
      if !EndedWithHead(m, p) {
        if |m| <= |n| {
          SameFirst(m, n, p);
        } else {
          SameFirst(n, m, p);
        }
      }
    }
  }

  lemma SameFirst(m: string, n: string, p: nat)
    requires p <= |m| <= |n| && n == m + n[|m|..] && Find(m[p..], LAST_CHUNK, 0).Some?
    ensures Find(m[p..], LAST_CHUNK, 0) == Find(n[p..], LAST_CHUNK, 0)
  {
    assert n[p..] == m[p..] + n[|m|..];
    FindAppend(m[p..], n[|m|..], LAST_CHUNK, 0);
  }

  // ---- All messages together ----

  /** Fragmentation independence. Take any two runs, of the same or of different
      sessions, whose peer sends the same byte stream, and all messages up to one that
      both have read. The runs have cut the same messages, whatever the sizes of the
      pieces in which the bytes arrived, if and only if those without a content length
      came out equally long. If every message has a content length, that is always. */
  lemma FragmentationIndependence(s: State, t: State, dir: Dir, stream: string, i: nat)
    requires BothRead(s, t, dir, stream, i) && |stream| < SIZE_MOD
    ensures (forall j: nat :: j <= i ==> s.Text(dir, j) == t.Text(dir, j)) <==>
            (forall j: nat :: j <= i && !HasKind(s.Text(dir, j), ContentLength) ==>
                                |s.Text(dir, j)| == |t.Text(dir, j)|)
    decreases i
  {
    hide Reachable, HasKind, ReadDone;
    if forall j: nat :: j <= i && !HasKind(s.Text(dir, j), ContentLength) ==> |s.Text(dir, j)| == |t.Text(dir, j)| {
      if i > 0 {
        BothReadEarlier(s, t, dir, stream, i, i - 1);
        FragmentationIndependence(s, t, dir, stream, i - 1);
      }
      if HasKind(s.Text(dir, i), ContentLength) {
        CountedAgree(s, t, dir, stream, i);
      } else {
        AgreeByLength(s, t, dir, stream, i);
      }
    }
  }
}
