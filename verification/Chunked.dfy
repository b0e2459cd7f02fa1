/** The chunked transfer coding of section 7.1 of RFC 9112, and what the search
    for the last chunk makes of it. */
module Chunked {
  import opened Search
  import opened Http
  import opened Relay

  predicate IsHexDigit(c: char) {
    '0' <= c <= '9' || 'a' <= c <= 'f' || 'A' <= c <= 'F'
  }

  function HexDigit(c: char): nat
    requires IsHexDigit(c)
  {
    if c <= '9' then c as int - '0' as int
    else if c <= 'F' then c as int - 'A' as int + 10
    else c as int - 'a' as int + 10
  }

  predicate IsHex(s: string) {
    s != "" && forall i :: 0 <= i < |s| ==> IsHexDigit(s[i])
  }

  function HexValue(s: string): nat
    requires forall i :: 0 <= i < |s| ==> IsHexDigit(s[i])
  {
    if s == "" then 0 else 16 * HexValue(s[..|s| - 1]) + HexDigit(s[|s| - 1])
  }

  datatype Chunk = Chunk(size: string, extension: string, data: string)

  /** `chunk-size [ chunk-ext ] CRLF chunk-data CRLF` */
  predicate WellFormed(c: Chunk) {
    IsHex(c.size) && HexValue(c.size) == |c.data| && c.data != ""
  }

  function Render(c: Chunk): string {
    c.size + c.extension + CRLF + c.data + CRLF
  }

  function Zeros(n: nat): (s: string)
    ensures |s| == n && forall i :: 0 <= i < n ==> s[i] == '0'
  {
    seq(n, _ => '0')
  }

  /** A chunked body without trailer: the chunks, and a last chunk of one or more
      zeros without extension. */
  function Encode(chunks: seq<Chunk>, zeros: nat): string {
    if chunks == [] then Zeros(zeros) + "0\r\n\r\n"
    else Render(chunks[0]) + Encode(chunks[1..], zeros)
  }

  lemma EncodeNone(zeros: nat)
    ensures Encode([], zeros) == Zeros(zeros) + LAST_CHUNK
  {
  }

  lemma EncodeSome(chunks: seq<Chunk>, zeros: nat)
    requires chunks != []
    ensures Encode(chunks, zeros) == Render(chunks[0]) + Encode(chunks[1..], zeros)
  {
  }

  lemma LastChunkItself()
    ensures |LAST_CHUNK| == 5 && Matches(LAST_CHUNK, LAST_CHUNK, 0)
  {
    var pat := LAST_CHUNK;
    assert pat[0..|pat|] == pat;
  }

  /** Every body ends in the pattern the proxy looks for. */
  lemma EndsInLastChunk(chunks: seq<Chunk>, zeros: nat)
    ensures var b := Encode(chunks, zeros);
            |b| >= 5 && Matches(b, LAST_CHUNK, |b| - 5)
  {
    hide *;
    if chunks == [] {
      EncodeNone(zeros);
      LastChunkItself();
      MatchesInside(Zeros(zeros), LAST_CHUNK, LAST_CHUNK, 0);
    } else {
      EncodeSome(chunks, zeros);
      EndsInLastChunk(chunks[1..], zeros);
      var rest := Encode(chunks[1..], zeros);
      MatchesInside(Render(chunks[0]), rest, LAST_CHUNK, |rest| - 5);
    }
  }

  /** No chunk, rendered with its size line, contains the pattern. */
  ghost predicate NoneHidden(chunks: seq<Chunk>) {
    forall i :: 0 <= i < |chunks| ==> Find(Render(chunks[i]), LAST_CHUNK, 0).None?
  }

  /** Where the pattern is looked for, its first characters decide. */
  lemma LastChunkAt(text: string, j: nat)
    ensures Matches(text, LAST_CHUNK, j) <==>
              && j + 5 <= |text| && text[j] == '0' && text[j + 1] == '\r' && text[j + 2] == '\n'
              && text[j + 3] == '\r' && text[j + 4] == '\n'
  {
    MatchesPointwise(text, LAST_CHUNK, j);
  }

  /** A match does not reach from one chunk into what follows it, which begins with a digit. */
  lemma NoMatchAcross(head: string, rest: string, j: nat)
    requires Find(head, LAST_CHUNK, 0).None? && j < |head|
    requires rest != "" && rest[0] != '\r' && rest[0] != '\n'
    ensures !Matches(head + rest, LAST_CHUNK, j)
  {
    LastChunkAt(head, j);
    LastChunkAt(head + rest, j);
    hide Find, Matches;
    var all := head + rest;
    assert all[|head|] == rest[0];
    if j + 5 <= |head| {
      assert forall k :: j <= k < j + 5 ==> all[k] == head[k];
    }
  }

  lemma StartsWithDigit(chunks: seq<Chunk>, zeros: nat)
    requires forall i :: 0 <= i < |chunks| ==> WellFormed(chunks[i])
    ensures var b := Encode(chunks, zeros); b != "" && IsHexDigit(b[0]) && b[0] != '\r' && b[0] != '\n'
  {
    if chunks != [] {
      assert Encode(chunks, zeros)[0] == chunks[0].size[0];
    }
  }

  lemma {:induction false} HiddenAreFound(chunks: seq<Chunk>, zeros: nat, i: nat)
    requires i < |chunks| && Find(Render(chunks[i]), LAST_CHUNK, 0).Some?
    ensures var b := Encode(chunks, zeros);
            |b| >= 5 && exists j: nat :: j < |b| - 5 && Matches(b, LAST_CHUNK, j)
  {
    var head, rest := Render(chunks[0]), Encode(chunks[1..], zeros);
    EndsInLastChunk(chunks[1..], zeros);
    if i == 0 {
      var at := Find(head, LAST_CHUNK, 0).value;
      LastChunkAt(head, at);
      MatchesPrefix(head, rest, LAST_CHUNK, at);
      assert at < |head + rest| - 5;
    } else {
      HiddenAreFound(chunks[1..], zeros, i - 1);
      hide Matches, Render;
      var j: nat :| j < |rest| - 5 && Matches(rest, LAST_CHUNK, j);
      MatchesInside(head, rest, LAST_CHUNK, j);
      assert |head| + j < |head + rest| - 5;
    }
  }

  lemma ZerosHideNothing(zeros: nat, j: nat)
    requires j + 5 < |Encode([], zeros)|
    ensures !Matches(Encode([], zeros), LAST_CHUNK, j)
  {
    LastChunkAt(Encode([], zeros), j);
    assert j + 1 <= zeros;
  }

  lemma {:induction false} NoneHiddenSuffices(chunks: seq<Chunk>, zeros: nat, j: nat)
    requires forall i :: 0 <= i < |chunks| ==> WellFormed(chunks[i])
    requires NoneHidden(chunks) && j + 5 < |Encode(chunks, zeros)|
    ensures !Matches(Encode(chunks, zeros), LAST_CHUNK, j)
    decreases |chunks|
  {
    hide *;
    if chunks == [] {
      ZerosHideNothing(zeros, j);
    } else {
      var head, rest := Render(chunks[0]), Encode(chunks[1..], zeros);
      EncodeSome(chunks, zeros);
      TailHidesNothing(chunks);
      StartsWithDigit(chunks[1..], zeros);
      if j < |head| {
        NoMatchAcross(head, rest, j);
      } else {
        NoneHiddenSuffices(chunks[1..], zeros, j - |head|);
        NoMatchShift(head, rest, j - |head|);
      }
    }
  }

  lemma TailHidesNothing(chunks: seq<Chunk>)
    requires chunks != [] && NoneHidden(chunks)
    ensures Find(Render(chunks[0]), LAST_CHUNK, 0).None? && NoneHidden(chunks[1..])
  {
    hide Find, Render;
    forall i | 0 <= i < |chunks[1..]| ensures Find(Render(chunks[1..][i]), LAST_CHUNK, 0).None? {
      assert chunks[1..][i] == chunks[i + 1];
    }
  }

  /** The pattern occurs in a body at the body's true end only, if and only if no single
      chunk contains it. */
  lemma LastChunkOnlyAtEnd(chunks: seq<Chunk>, zeros: nat)
    requires forall i :: 0 <= i < |chunks| ==> WellFormed(chunks[i])
    ensures var b := Encode(chunks, zeros);
            |b| >= 5 && (Find(b, LAST_CHUNK, 0) == Some(|b| - 5) <==> NoneHidden(chunks))
  {
    var b := Encode(chunks, zeros);
    EndsInLastChunk(chunks, zeros);
    hide Matches, Encode, Render;
    if NoneHidden(chunks) {
      forall j: nat | j < |b| - 5 ensures !Matches(b, LAST_CHUNK, j) {
        NoneHiddenSuffices(chunks, zeros, j);
      }
      FindIs(b, LAST_CHUNK, 0, |b| - 5);
    } else {
      var i :| 0 <= i < |chunks| && Find(Render(chunks[i]), LAST_CHUNK, 0).Some?;
      HiddenAreFound(chunks, zeros, i);
    }
  }

  const EARLY: Chunk := Chunk("5", "", LAST_CHUNK)

  /** Its size line and data, which end in the pattern, and what follows them. */
  const EARLY_PART: string := "5\r\n0\r\n\r\n"
  const EARLY_REST: string := "\r\n0\r\n\r\n"

  lemma EarlyCharacters()
    ensures |EARLY_PART| == 8 && EARLY_PART[0] == '5' && EARLY_PART[1] == '\r' && EARLY_PART[2] == '\n'
    ensures EARLY_PART[3] == '0' && EARLY_PART[4] == '\r' && EARLY_PART[5] == '\n'
    ensures EARLY_PART[6] == '\r' && EARLY_PART[7] == '\n'
  {
  }

  lemma EarlyIsFound()
    ensures |EARLY_PART| == 8 && Find(EARLY_PART, LAST_CHUNK, 0) == Some(3)
  {
    hide *;
    EarlyCharacters();
    LastChunkAt(EARLY_PART, 0);
    LastChunkAt(EARLY_PART, 1);
    LastChunkAt(EARLY_PART, 2);
    LastChunkAt(EARLY_PART, 3);
    FindIs(EARLY_PART, LAST_CHUNK, 0, 3);
  }

  lemma EarlyPieces()
    ensures "5" + "" + CRLF + LAST_CHUNK + CRLF == EARLY_PART + CRLF
    ensures EARLY_PART + CRLF + LAST_CHUNK == EARLY_PART + EARLY_REST && |EARLY_REST| == 7
  {
    assert EARLY_REST == CRLF + LAST_CHUNK;
    assert "5" + "" + CRLF + LAST_CHUNK == EARLY_PART;
    hide *;
    assert EARLY_PART + CRLF + LAST_CHUNK == EARLY_PART + (CRLF + LAST_CHUNK);
  }

  lemma EarlyBody()
    ensures WellFormed(EARLY) && Encode([EARLY], 0) == EARLY_PART + EARLY_REST && |EARLY_REST| == 7
  {
    LastChunkItself();
    assert HexValue("5") == 5 by {
      assert "5"[..0] == "";
    }
    assert Render(EARLY) == "5" + "" + CRLF + LAST_CHUNK + CRLF;
    assert WellFormed(EARLY);
    assert Zeros(0) == "";
    hide *;
    assert [EARLY][1..] == [];
    EncodeSome([EARLY], 0);
    EncodeNone(0);
    assert Zeros(0) + LAST_CHUNK == LAST_CHUNK;
    EarlyPieces();
  }

  /** A well-formed chunk whose five bytes are the pattern: the end is found inside it. */
  lemma EarlyEnd()
    ensures WellFormed(EARLY) && !NoneHidden([EARLY])
    ensures |Encode([EARLY], 0)| == 15 && Find(Encode([EARLY], 0), LAST_CHUNK, 0) == Some(3)
  {
    hide *;
    EarlyBody();
    EarlyIsFound();
    FindAppend(EARLY_PART, EARLY_REST, LAST_CHUNK, 0);
    LastChunkOnlyAtEnd([EARLY], 0);
  }

  lemma NoMatchShift(pre: string, text: string, j: nat)
    requires !Matches(text, LAST_CHUNK, j)
    ensures !Matches(pre + text, LAST_CHUNK, |pre| + j)
  {
    if |pre| + j + 5 <= |pre + text| {
      assert (pre + text)[|pre| + j..|pre| + j + 5] == text[j..j + 5];
    }
  }

  /** What the proxy sees: `surplus` came with the header, `body` was read after it. */
  ghost predicate Detected(header: string, surplus: string, body: string) {
    Find(header + surplus, LAST_CHUNK, |header|).Some? || Find(body, LAST_CHUNK, 0).Some?
  }

  lemma FindBehind(header: string, surplus: string)
    ensures Find(header + surplus, LAST_CHUNK, |header|).Some? == Find(surplus, LAST_CHUNK, 0).Some?
  {
    FindShift(header, surplus, LAST_CHUNK, 0);
    assert |header| + 0 == |header|;
  }

  /** The end of every chunked body is noticed by the time the body has arrived,
      without asking for a byte more, unless its last five bytes are divided
      between the header read and the body read. */
  lemma WholeBodyIsDetected(header: string, surplus: string, body: string, chunks: seq<Chunk>, zeros: nat)
    requires surplus + body == Encode(chunks, zeros)
    requires body == "" || |body| >= 5
    ensures Detected(header, surplus, body)
  {
    hide Encode, Find;
    var b := Encode(chunks, zeros);
    EndsInLastChunk(chunks, zeros);
    FindBehind(header, surplus);
    if body == "" {
      assert surplus == b;
      assert Matches(surplus, LAST_CHUNK, |b| - 5);
    } else {
      PieceEnds(b, surplus, body);
    }
    hide *;
    DetectedBy(header, surplus, body, |b| - 5, if body == "" then 0 else |body| - 5);
  }

  lemma DetectedBy(header: string, surplus: string, body: string, i: nat, j: nat)
    requires Matches(surplus, LAST_CHUNK, i) || Matches(body, LAST_CHUNK, j)
    ensures Detected(header, surplus, body)
  {
    FindBehind(header, surplus);
  }

  lemma MatchInPiece(b: string, pre: string, piece: string, post: string, at: nat)
    requires b == pre + piece + post && Matches(piece, LAST_CHUNK, at)
    requires forall j: nat :: j < |b| - 5 ==> !Matches(b, LAST_CHUNK, j)
    ensures post == "" && |piece| >= 5
  {
    MatchesInside(pre, piece, LAST_CHUNK, at);
    MatchesPrefix(pre + piece, post, LAST_CHUNK, |pre| + at);
    hide Matches;
    assert !(|pre| + at < |b| - 5);
  }

  /** A piece of a text whose only match is at its end matches only if it reaches
      the end and is long enough. */
  lemma PieceMatches(b: string, pre: string, piece: string, post: string)
    requires b == pre + piece + post && |b| >= 5 && Find(b, LAST_CHUNK, 0) == Some(|b| - 5)
    ensures Find(piece, LAST_CHUNK, 0).Some? <==> post == "" && |piece| >= 5
  {
    hide Matches;
    var r := Find(piece, LAST_CHUNK, 0);
    if r.Some? {
      MatchInPiece(b, pre, piece, post, r.value);
    } else if post == "" && |piece| >= 5 {
      assert b == pre + piece;
      PieceEnds(b, pre, piece);
    }
  }

  lemma PieceEnds(b: string, pre: string, piece: string)
    requires b == pre + piece && |piece| >= 5 && Matches(b, LAST_CHUNK, |b| - 5)
    ensures Matches(piece, LAST_CHUNK, |piece| - 5)
  {
    assert piece[|piece| - 5..|piece|] == b[|b| - 5..|b|];
  }

  lemma SurplusDetection(header: string, surplus: string, later: string, b: string)
    requires surplus + later == b && |b| >= 5 && Find(b, LAST_CHUNK, 0) == Some(|b| - 5)
    ensures Find(header + surplus, LAST_CHUNK, |header|).Some? <==> later == ""
  {
    FindBehind(header, surplus);
    assert b == "" + surplus + later;
    PieceMatches(b, "", surplus, later);
    hide Find;
  }

  lemma BodyDetection(surplus: string, body: string, missing: string, b: string)
    requires surplus + body + missing == b && |b| >= 5 && Find(b, LAST_CHUNK, 0) == Some(|b| - 5)
    ensures Find(body, LAST_CHUNK, 0).Some? <==> missing == "" && |body| >= 5
  {
    PieceMatches(b, surplus, body, missing);
  }

  /** Exactly when the end of a body is noticed that hides no pattern: not before the
      body's own last byte, and at that byte if and only if the five bytes of the last
      chunk came in one piece. Otherwise the read asks for bytes past the end. */
  lemma DetectionExactly(header: string, surplus: string, body: string, missing: string, chunks: seq<Chunk>, zeros: nat)
    requires NoneHidden(chunks) && forall i :: 0 <= i < |chunks| ==> WellFormed(chunks[i])
    requires surplus + body + missing == Encode(chunks, zeros)
    ensures Detected(header, surplus, body) <==> missing == "" && (body == "" || |body| >= 5)
  {
    hide Encode, Find, NoneHidden, WellFormed, Matches;
    var b := Encode(chunks, zeros);
    LastChunkOnlyAtEnd(chunks, zeros);
    assert surplus + (body + missing) == b;
    SurplusDetection(header, surplus, body + missing, b);
    BodyDetection(surplus, body, missing, b);
  }
}
