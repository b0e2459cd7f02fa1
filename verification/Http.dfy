/** The header functions of utils.cpp. A `std::string` is a `string` of bytes, and
    `tolower` is the one of the "C" locale. */
module Http {
  import opened Numbers
  import opened Search

  const SIZE_MOD: nat := 0x1_0000_0000_0000_0000
  /** `std::string::npos` */
  const NPOS: nat := SIZE_MOD - 1
  const CRLF: string := "\r\n"

  function LowerChar(c: char): char {
    if 'A' <= c <= 'Z' then c + 32 as char else c
  }

  const UPPER: string := "ABCDEFGHIJKLMNOPQRSTUVWXYZ"
  const LOWER: string := "abcdefghijklmnopqrstuvwxyz"

  lemma Alphabet(i: nat)
    requires i < 26
    ensures |UPPER| == 26 && |LOWER| == 26
    ensures UPPER[i] as int == 'A' as int + i && LOWER[i] as int == 'a' as int + i
  {
  }

  /** `tolower` takes each capital letter to the small one, and leaves everything else. */
  lemma LowerCharExactly(c: char)
    ensures |UPPER| == 26 && |LOWER| == 26
    ensures forall i :: 0 <= i < 26 && UPPER[i] == c ==> LowerChar(c) == LOWER[i]
    ensures c !in UPPER ==> LowerChar(c) == c
  {
    Alphabet(0);
    hide UPPER, LOWER;
    forall i | 0 <= i < 26 && UPPER[i] == c ensures LowerChar(c) == LOWER[i] {
      Alphabet(i);
    }
    if 'A' <= c <= 'Z' {
      Alphabet(c as int - 'A' as int);
      assert UPPER[c as int - 'A' as int] == c;
    }
  }

  /** `t` is `s` in small letters. */
  ghost predicate InLowerCase(s: string, t: string) {
    && |t| == |s|
    && (forall i, k :: 0 <= i < |s| && 0 <= k < |UPPER| && s[i] == UPPER[k] ==> k < |LOWER| && t[i] == LOWER[k])
    && (forall i :: 0 <= i < |s| && s[i] !in UPPER ==> t[i] == s[i])
  }

  lemma NotSmall(c: char)
    requires c in UPPER
    ensures LowerChar(c) !in UPPER
  {
    var i :| 0 <= i < |UPPER| && UPPER[i] == c;
    Alphabet(i);
    hide UPPER, LOWER;
    if LowerChar(c) in UPPER {
      var j :| 0 <= j < |UPPER| && UPPER[j] == LowerChar(c);
      Alphabet(j);
      assert false;
    }
  }

  /** Lower-casing: letter by letter, no capital is left, and a second time changes nothing. */
  lemma LowerExactly(s: string)
    ensures InLowerCase(s, Lower(s))
    ensures forall c :: c in Lower(s) ==> c !in UPPER
    ensures Lower(Lower(s)) == Lower(s)
  {
    Alphabet(0);
    hide UPPER, LOWER, LowerChar;
    var t := Lower(s);
    forall i | 0 <= i < |s|
      ensures t[i] !in UPPER && LowerChar(t[i]) == t[i]
      ensures s[i] !in UPPER ==> t[i] == s[i]
    {
      LowerCharExactly(s[i]);
      if s[i] in UPPER {
        NotSmall(s[i]);
      }
      LowerCharExactly(t[i]);
    }
    forall i, k | 0 <= i < |s| && 0 <= k < |UPPER| && s[i] == UPPER[k] ensures t[i] == LOWER[k] {
      LowerCharExactly(s[i]);
    }
    assert Lower(t) == t;
  }

  function Lower(s: string): (r: string)
    ensures |r| == |s| && forall i :: 0 <= i < |s| ==> r[i] == LowerChar(s[i])
  {
    seq(|s|, i requires 0 <= i < |s| => LowerChar(s[i]))
  }

  /** `to_lowercase`, which rewrites its argument in place. */
  method ToLowercase(str: array<char>)
    modifies str
    ensures str[..] == Lower(old(str[..])) && InLowerCase(old(str[..]), str[..])
  {
    LowerExactly(str[..]);
    forall i | 0 <= i < str.Length {
      str[i] := LowerChar(str[i]);
    }
  }

  predicate MatchesCi(haystack: string, needle: string, j: nat) {
    && j + |needle| <= |haystack|
    && forall k :: 0 <= k < |needle| ==> LowerChar(haystack[j + k]) == LowerChar(needle[k])
  }

  /** `find_ci`: `std::search` with a case-folding comparison found something before the end. */
  predicate FindCi(haystack: string, needle: string) {
    exists j: nat | j < |haystack| :: MatchesCi(haystack, needle, j)
  }

  datatype Body = ContentLength | ChunkedCoding | NoBody

  function IdentifyBody(header: string): Body {
    if FindCi(header, "content-length") then ContentLength
    else if FindCi(header, "chunked") then ChunkedCoding
    else NoBody
  }

  /** `find` as a `size_t`. */
  function FindPos(text: string, pat: string, from: nat): nat {
    match Find(text, pat, from)
    case Some(at) => at
    case None => NPOS
  }

  /** `find_first_not_of(" ")` as a `size_t`. */
  function FirstNotSpace(s: string, from: nat): nat
    decreases |s| - from
  {
    if from >= |s| then NPOS
    else if s[from] != ' ' then from
    else FirstNotSpace(s, from + 1)
  }

  /** `erase(pos, n)`. */
  function Erase(s: string, pos: nat, n: nat): string
    requires pos <= |s|
  {
    s[..pos] + s[pos + Min(n, |s| - pos)..]
  }

  /** What `parse_field` does: it returns, throws `std::out_of_range`, or erases
      an iterator range that is not one. */
  datatype Parsed = Value(text: string) | OutOfRange | Undefined

  /** Where `parse_field` starts to read, in `size_t` arithmetic. */
  function FieldStart(low: string, name: string): nat {
    (FindPos(low, name, 0) + |name| + 1) % SIZE_MOD
  }

  /** `substr` up to the next line end. */
  function RawField(low: string, begin: nat): string
    requires begin <= |low|
  {
    low[begin..begin + Min((FindPos(low, CRLF, begin) - begin) % SIZE_MOD, |low| - begin)]
  }

  /** The first `erase`. */
  function TrimOnce(raw: string): string {
    match Find(raw, " ", 0)
    case Some(at) => Erase(raw, at, FirstNotSpace(raw, 0))
    case None => raw
  }

  /** The second `erase`, of an iterator range. */
  function TrimAgain(raw: string): Parsed {
    match Find(raw, " ", 0)
    case Some(first) =>
      var last := FirstNotSpace(raw, 0);
      if first <= last <= |raw| then Value(raw[..first] + raw[last..]) else Undefined
    case None => Value(raw)
  }

  /** `parse_field`. */
  function ParseField(header: string, field: string): Parsed {
    var low := Lower(header);
    var begin := FieldStart(low, Lower(field));
    if begin > |low| then OutOfRange else TrimAgain(TrimOnce(RawField(low, begin)))
  }

  /** `parse_field` as written, editing its local copies. */
  method ParseFieldByErasing(header: string, field: string) returns (r: Parsed)
    ensures r == ParseField(header, field)
  {
    var low := Lower(header);
    var begin := FieldStart(low, Lower(field));
    if begin > |low| {
      return OutOfRange;
    }
    var result := RawField(low, begin);
    ghost var raw := result;
    if Find(result, " ", 0).Some? {
      result := Erase(result, Find(result, " ", 0).value, FirstNotSpace(result, 0));
    }
    assert result == TrimOnce(raw);
    if Find(result, " ", 0).Some? {
      var first, last := Find(result, " ", 0).value, FirstNotSpace(result, 0);
      if !(first <= last <= |result|) {
        return Undefined;
      }
      result := result[..first] + result[last..];
    }
    r := Value(result);
  }

  predicate IsSpace(c: char) {
    c == ' ' || '\t' <= c <= '\r'
  }

  predicate IsDigit(c: char) {
    '0' <= c <= '9'
  }

  function DigitValue(c: char): nat
    requires IsDigit(c)
  {
    c as int - '0' as int
  }

  /** The number written by the digits `s` starts with, `acc` being the digits before. */
  function LeadingNumber(s: string, acc: nat): nat {
    if s == "" || !IsDigit(s[0]) then acc
    else LeadingNumber(s[1..], 10 * acc + DigitValue(s[0]))
  }

  /** `std::stoul` in base ten; `None` is an exception. */
  function Stoul(s: string): Option<nat> {
    if s == "" then None
    else if IsSpace(s[0]) then Stoul(s[1..])
    else
      var negative := s[0] == '-';
      var digits := if negative || s[0] == '+' then s[1..] else s;
      if digits == "" || !IsDigit(digits[0]) then None else
        var n := LeadingNumber(digits, 0);
        if n >= SIZE_MOD then None
        else Some(if negative then (SIZE_MOD - n) % SIZE_MOD else n)
  }

  // ---- Header search agrees with header parsing ----

  lemma MatchesCiIsMatchesLower(h: string, n: string, j: nat)
    ensures MatchesCi(h, n, j) == Matches(Lower(h), Lower(n), j)
  {
    MatchesPointwise(Lower(h), Lower(n), j);
  }

  /** `find_ci` answers yes exactly when the lower-cased text contains the lower-cased needle. */
  lemma FindCiIsFindLower(h: string, n: string)
    requires n != ""
    ensures FindCi(h, n) == Find(Lower(h), Lower(n), 0).Some?
  {
    if FindCi(h, n) {
      var j: nat :| j < |h| && MatchesCi(h, n, j);
      MatchesCiIsMatchesLower(h, n, j);
    }
    var r := Find(Lower(h), Lower(n), 0);
    if r.Some? {
      MatchesCiIsMatchesLower(h, n, r.value);
      assert r.value < |h|;
    }
  }

  // ---- What parse_field returns ----

  function StripLeading(s: string): string {
    if s != "" && s[0] == ' ' then StripLeading(s[1..]) else s
  }

  /** The text of a line: what comes before the first CRLF, or everything. */
  function FirstLine(s: string): string {
    match Find(s, CRLF, 0)
    case Some(at) => s[..at]
    case None => s
  }

  /** A line without its leading spaces; undefined if a space remains. */
  function LineValue(line: string): Parsed {
    var value := StripLeading(line);
    if ' ' in value then Undefined else Value(value)
  }

  lemma StripLeadingIsDrop(s: string, from: nat)
    requires from <= |s| && forall i :: 0 <= i < from ==> s[i] == ' '
    ensures FirstNotSpace(s, from) == NPOS ==> StripLeading(s[from..]) == "" && |StripLeading(s[from..])| == 0
    ensures FirstNotSpace(s, from) != NPOS ==>
              FirstNotSpace(s, from) < |s| && StripLeading(s[from..]) == s[FirstNotSpace(s, from)..]
    requires |s| < NPOS
    decreases |s| - from
  {
    if from < |s| && s[from] == ' ' {
      assert s[from..][1..] == s[from + 1..];
      StripLeadingIsDrop(s, from + 1);
    }
  }

  lemma StripLeadingStart(s: string)
    ensures var r := StripLeading(s);
            && (r != "" ==> r[0] != ' ')
            && |r| <= |s|
            && r == s[|s| - |r|..]
            && forall i :: 0 <= i < |s| - |r| ==> s[i] == ' '
  {
    if s != "" && s[0] == ' ' {
      StripLeadingStart(s[1..]);
      var r := StripLeading(s[1..]);
      assert s[1..][|s| - 1 - |r|..] == s[|s| - |r|..];
      forall i | 0 <= i < |s| - |r| ensures s[i] == ' ' {
        if i > 0 {
          assert s[i] == s[1..][i - 1];
        }
      }
    }
  }

  lemma SpaceMatches(s: string, j: nat)
    ensures Matches(s, " ", j) <==> j < |s| && s[j] == ' '
  {
    if j < |s| {
      assert s[j..j + 1] == [s[j]];
    }
  }

  lemma FindSpace(s: string)
    ensures Find(s, " ", 0).Some? <==> ' ' in s
    ensures Find(s, " ", 0).Some? ==>
              var at := Find(s, " ", 0).value;
              at < |s| && s[at] == ' ' && forall i :: 0 <= i < at ==> s[i] != ' '
  {
    hide *;
    var r := Find(s, " ", 0);
    forall j: nat ensures Matches(s, " ", j) <==> j < |s| && s[j] == ' ' {
      SpaceMatches(s, j);
    }
    if r.Some? {
      assert Matches(s, " ", r.value);
    }
  }

  lemma SpaceInFront(s: string)
    requires s != "" && s[0] == ' '
    ensures Find(s, " ", 0) == Some(0)
  {
    SpaceMatches(s, 0);
    FindIs(s, " ", 0, 0);
  }

  lemma FirstNotSpaceAtZero(s: string)
    requires s != "" && s[0] != ' '
    ensures FirstNotSpace(s, 0) == 0
  {
  }

  lemma StripLeadingNothing(s: string)
    requires s == "" || s[0] != ' '
    ensures StripLeading(s) == s
  {
  }

  lemma StripLeadingByIndex(s: string)
    requires |s| < NPOS
    ensures var last := FirstNotSpace(s, 0);
            StripLeading(s) == if last == NPOS then "" else s[Min(last, |s|)..]
  {
    StripLeadingIsDrop(s, 0);
    hide FirstNotSpace, StripLeading;
    assert s[0..] == s;
  }

  lemma TrimOnceIs(raw: string, found: Option<nat>)
    requires Find(raw, " ", 0) == found && (found.Some? ==> found.value <= |raw|)
    ensures TrimOnce(raw) == if found.Some? then Erase(raw, found.value, FirstNotSpace(raw, 0)) else raw
  {
    hide Find, Erase, FirstNotSpace;
  }

  lemma EraseNothing(s: string, pos: nat)
    requires pos <= |s|
    ensures Erase(s, pos, 0) == s
  {
  }

  lemma EraseFront(s: string, n: nat)
    ensures Erase(s, 0, n) == s[Min(n, |s|)..]
  {
  }

  /** The first `erase` removes exactly the leading spaces. */
  lemma TrimOnceStrips(raw: string)
    requires |raw| < NPOS
    ensures TrimOnce(raw) == StripLeading(raw)
  {
    assert Min(NPOS, |raw|) == |raw|;
    hide *;
    FindSpace(raw);
    var found := Find(raw, " ", 0);
    TrimOnceIs(raw, found);
    if raw != "" && raw[0] == ' ' {
      SpaceInFront(raw);
      EraseFront(raw, FirstNotSpace(raw, 0));
      StripLeadingByIndex(raw);
    } else {
      StripLeadingNothing(raw);
      if found.Some? {
        FirstNotSpaceAtZero(raw);
        EraseNothing(raw, found.value);
      }
    }
  }

  /** After the leading spaces are gone, a space left over makes the second
      `erase` undefined, because its range ends before it starts. */
  lemma TrimAgainMeaning(raw: string)
    requires raw == "" || raw[0] != ' '
    ensures TrimAgain(raw) == if ' ' in raw then Undefined else Value(raw)
  {
    FindSpace(raw);
    if ' ' in raw {
      FirstNotSpaceAtZero(raw);
    }
  }

  lemma FindShift(pre: string, text: string, pat: string, from: nat)
    ensures Find(pre + text, pat, |pre| + from) ==
            match Find(text, pat, from) case Some(at) => Some(|pre| + at) case None => None
  {
    hide *;
    var r := Find(text, pat, from);
    forall j: nat | |pre| + from <= j && (r.Some? ==> j < |pre| + r.value) ensures !Matches(pre + text, pat, j) {
      MatchesShift(pre, text, pat, j - |pre|);
      assert |pre| + (j - |pre|) == j;
    }
    if r.Some? {
      MatchesShift(pre, text, pat, r.value);
      FindIs(pre + text, pat, |pre| + from, |pre| + r.value);
    } else {
      FindNone(pre + text, pat, |pre| + from);
    }
  }

  lemma FindNone(text: string, pat: string, from: nat)
    requires forall j: nat :: from <= j ==> !Matches(text, pat, j)
    ensures Find(text, pat, from).None?
  {
    hide Matches;
  }

  lemma MatchesShift(pre: string, text: string, pat: string, j: nat)
    ensures Matches(pre + text, pat, |pre| + j) == Matches(text, pat, j)
  {
    if j + |pat| <= |text| {
      assert (pre + text)[|pre| + j..|pre| + j + |pat|] == text[j..j + |pat|];
    }
  }

  lemma RawFieldIsFirstLine(low: string, begin: nat)
    requires begin <= |low| < NPOS
    ensures RawField(low, begin) == FirstLine(low[begin..])
  {
    hide Find;
    var pre, rest := low[..begin], low[begin..];
    assert low == pre + rest;
    FindShift(pre, rest, CRLF, 0);
    assert |pre| + 0 == begin;
    match Find(rest, CRLF, 0)
    case Some(at) =>
      assert FindPos(low, CRLF, begin) == begin + at;
      assert low[begin..begin + at] == rest[..at];
    case None =>
      assert FindPos(low, CRLF, begin) == NPOS;
      assert low[begin..] == rest;
  }

  lemma RawFieldLength(low: string, begin: nat)
    requires begin <= |low|
    ensures |RawField(low, begin)| <= |low|
  {
  }

  /** Where the value of a field starts: one character past its name. Without
      such a field, `npos` wraps, and the value starts as far into the text as the
      name is long. */
  ghost function ValueStart(low: string, name: string): nat {
    match Find(low, name, 0)
    case Some(at) => at + |name| + 1
    case None => |name|
  }

  /** All of what `parse_field` does: it throws exactly when the value would start
      past the end; otherwise the answer is the rest of the line without leading
      spaces, and that is defined exactly when no other space is left in it. */
  lemma ParseFieldMeaning(header: string, field: string)
    requires |header| < NPOS && |field| < NPOS
    ensures var low := Lower(header);
            var begin := ValueStart(low, Lower(field));
            ParseField(header, field) ==
            if begin > |low| then OutOfRange else LineValue(FirstLine(low[begin..]))
  {
    hide Find, RawField, FirstLine, TrimOnce, TrimAgain, StripLeading, Lower;
    var low := Lower(header);
    var begin := ValueStart(low, Lower(field));
    assert FieldStart(low, Lower(field)) == begin;
    if begin <= |low| {
      RawFieldIsFirstLine(low, begin);
      var raw := RawField(low, begin);
      RawFieldLength(low, begin);
      TrimOnceStrips(raw);
      StripLeadingStart(raw);
      TrimAgainMeaning(StripLeading(raw));
    }
  }

  // ---- Round trip over a rendered header ----

  datatype Field = Field(name: string, padding: nat, value: string)

  function Spaces(n: nat): (s: string)
    ensures |s| == n && forall i :: 0 <= i < n ==> s[i] == ' '
  {
    seq(n, _ => ' ')
  }

  function RenderField(f: Field): string {
    f.name + ":" + Spaces(f.padding) + f.value + CRLF
  }

  function RenderFields(fields: seq<Field>): string {
    if fields == [] then "" else RenderField(fields[0]) + RenderFields(fields[1..])
  }

  function Render(startLine: string, fields: seq<Field>): string {
    startLine + CRLF + RenderFields(fields) + CRLF
  }

  lemma LowerConcat(a: string, b: string)
    ensures Lower(a + b) == Lower(a) + Lower(b)
  {
  }

  lemma RenderFieldsFirst(fields: seq<Field>)
    requires fields != []
    ensures RenderFields(fields) == RenderField(fields[0]) + RenderFields(fields[1..])
  {
  }

  lemma FirstOfBoth(a: seq<Field>, b: seq<Field>)
    requires a != []
    ensures a + b != [] && (a + b)[0] == a[0] && (a + b)[1..] == a[1..] + b
  {
  }

  lemma Associative(a: string, b: string, c: string)
    ensures a + (b + c) == (a + b) + c
  {
  }

  lemma RenderFieldsNone(b: seq<Field>)
    ensures RenderFields([] + b) == RenderFields([]) + RenderFields(b)
  {
    assert [] + b == b;
  }

  lemma RenderFieldsConcat(a: seq<Field>, b: seq<Field>)
    ensures RenderFields(a + b) == RenderFields(a) + RenderFields(b)
  {
    hide *;
    if a == [] {
      RenderFieldsNone(b);
    } else {
      FirstOfBoth(a, b);
      RenderFieldsFirst(a + b);
      RenderFieldsConcat(a[1..], b);
      RenderFieldsFirst(a);
      Associative(RenderField(a[0]), RenderFields(a[1..]), RenderFields(b));
    }
  }

  /** Where the line of field `k` starts in the rendered header. */
  function FieldOffset(startLine: string, fields: seq<Field>, k: nat): nat
    requires k < |fields|
  {
    |startLine| + 2 + |RenderFields(fields[..k])|
  }

  lemma LowerNoNewline(s: string)
    requires '\n' !in s
    ensures '\n' !in Lower(s)
    ensures ' ' !in s ==> ' ' !in Lower(s)
  {
  }

  lemma FirstLineOf(value: string, rest: string)
    requires '\n' !in value
    ensures FirstLine(value + CRLF + rest) == value
  {
    var all := value + CRLF + rest;
    forall j: nat | j < |value| ensures !Matches(all, CRLF, j) {
      MatchesPointwise(all, CRLF, j);
      assert CRLF[1] == '\n';
      if j + 1 < |value| {
        assert all[j + 1] == value[j + 1];
      } else {
        assert all[j + 1] == '\r';
      }
    }
    MatchesPointwise(all, CRLF, |value|);
    FindIs(all, CRLF, 0, |value|);
  }

  lemma StripLeadingOf(n: nat, value: string)
    requires ' ' !in value
    ensures StripLeading(Spaces(n) + value) == value
  {
    if n > 0 {
      assert (Spaces(n) + value)[1..] == Spaces(n - 1) + value;
      StripLeadingOf(n - 1, value);
    } else {
      assert Spaces(0) + value == value;
    }
  }

  /** The value of a line whose name ends where `pre` does. */
  lemma ParseFieldLine(text: string, name: string, pre: string, padding: nat, value: string, rest: string)
    requires ' ' !in value && '\n' !in value && |text| < NPOS && |name| < NPOS
    requires text == pre + (Spaces(padding) + value + CRLF + rest)
    requires Find(Lower(text), Lower(name), 0).Some?
    requires |pre| == Find(Lower(text), Lower(name), 0).value + |name| + 1
    ensures ParseField(text, name) == Value(Lower(value))
  {
    hide ParseField, Find, StripLeading, FirstLine;
    var pad, low := Spaces(padding), Lower(text);
    LowerNoNewline(value);
    assert low[|pre|..] == pad + Lower(value) + CRLF + Lower(rest);
    FirstLineOf(pad + Lower(value), Lower(rest));
    StripLeadingOf(padding, Lower(value));
    ParseFieldMeaning(text, name);
  }

  lemma RenderAround(startLine: string, fields: seq<Field>, k: nat)
    requires k < |fields|
    ensures var f := fields[k];
            Render(startLine, fields) ==
            (startLine + CRLF + RenderFields(fields[..k]) + f.name + ":") +
            (Spaces(f.padding) + f.value + CRLF + (RenderFields(fields[k + 1..]) + CRLF))
  {
    var f, before, after := fields[k], RenderFields(fields[..k]), RenderFields(fields[k + 1..]);
    assert f == Field(f.name, f.padding, f.value);
    assert Render(startLine, fields) == startLine + CRLF + RenderFields(fields) + CRLF;
    assert RenderFields(fields) == before + (RenderField(f) + after) by {
      assert fields == fields[..k] + fields[k..];
      RenderFieldsConcat(fields[..k], fields[k..]);
      assert fields[k..][1..] == fields[k + 1..];
    }
    hide *;
    Regroup(startLine + CRLF, before, f.name, f.padding, f.value, after);
  }

  lemma Regroup(left: string, before: string, name: string, padding: nat, value: string, after: string)
    ensures left + (before + (RenderField(Field(name, padding, value)) + after)) + CRLF ==
            (left + before + name + ":") + (Spaces(padding) + value + CRLF + (after + CRLF))
  {
    var line, tail := Spaces(padding) + value, after + CRLF;
    hide Spaces;
    assert RenderField(Field(name, padding, value)) == name + ":" + line + CRLF;
    var all := left + before + name + ":" + line + CRLF + after + CRLF;
    assert left + (before + (name + ":" + line + CRLF + after)) + CRLF == all;
    assert (left + before + name + ":") + (line + CRLF + tail) == all;
  }

  /** `parse_field` reads back what the header says: if the first case-insensitive
      occurrence of the name is the field's own line and the value has no space
      and no line end, the lower-cased value is returned, however much padding
      stands before it. */
  lemma ParseFieldRoundTrip(startLine: string, fields: seq<Field>, k: nat, name: string)
    requires k < |fields| && Lower(fields[k].name) == Lower(name)
    requires ' ' !in fields[k].value && '\n' !in fields[k].value
    requires |Render(startLine, fields)| < NPOS && |name| < NPOS
    requires Find(Lower(Render(startLine, fields)), Lower(name), 0) == Some(FieldOffset(startLine, fields, k))
    ensures ParseField(Render(startLine, fields), name) == Value(Lower(fields[k].value))
  {
    hide ParseField, Find, RenderFields, Lower;
    var f, text := fields[k], Render(startLine, fields);
    var before, after := RenderFields(fields[..k]), RenderFields(fields[k + 1..]);
    RenderAround(startLine, fields, k);
    var pre := startLine + CRLF + before + f.name + ":";
    ParseFieldLine(text, name, pre, f.padding, f.value, after + CRLF);
  }

  lemma FirstLineAppend(s: string, more: string)
    requires Find(s, CRLF, 0).Some?
    ensures FirstLine(s + more) == FirstLine(s)
  {
    FindAppend(s, more, CRLF, 0);
  }

  /** Text that follows a header does not change a field found inside it, so the
      host of a request is the same before and after its body has arrived. */
  lemma ParseFieldStable(header: string, more: string, field: string)
    requires |header + more| < NPOS && |field| < NPOS
    requires Find(Lower(header), Lower(field), 0).Some?
    requires var begin := Find(Lower(header), Lower(field), 0).value + |field| + 1;
             begin <= |header| && Find(Lower(header)[begin..], CRLF, 0).Some?
    ensures ParseField(header + more, field) == ParseField(header, field)
  {
    hide ParseField, Find, FirstLine, LineValue, Lower;
    var low, extra, pat := Lower(header), Lower(more), Lower(field);
    LowerConcat(header, more);
    var begin := Find(low, pat, 0).value + |field| + 1;
    ParseFieldMeaning(header, field);
    assert Find(low + extra, pat, 0) == Find(low, pat, 0) by {
      FindAppend(low, extra, pat, 0);
    }
    ParseFieldMeaning(header + more, field);
    assert FirstLine((low + extra)[begin..]) == FirstLine(low[begin..]) by {
      assert (low + extra)[begin..] == low[begin..] + extra;
      FirstLineAppend(low[begin..], extra);
    }
  }

  lemma LowerKeywords()
    ensures Lower("content-length") == "content-length" && Lower("chunked") == "chunked"
  {
    assert Lower("content-length") == "content-length";
    assert Lower("chunked") == "chunked";
  }

  /** A content length wins over a chunked coding wherever the two names stand, and
      the search that decides is the one `parse_field` repeats, so it finds the field. */
  lemma IdentifyBodyExactly(header: string)
    ensures var low := Lower(header);
            var counted, chunked := Find(low, "content-length", 0).Some?, Find(low, "chunked", 0).Some?;
            && (IdentifyBody(header) == ContentLength <==> counted)
            && (IdentifyBody(header) == ChunkedCoding <==> !counted && chunked)
            && (IdentifyBody(header) == NoBody <==> !counted && !chunked)
  {
    LowerKeywords();
    FindCiIsFindLower(header, "content-length");
    FindCiIsFindLower(header, "chunked");
    hide Find, FindCi, Lower;
  }

  // ---- Decimal numbers ----

  function Decimal(n: nat): string {
    if n < 10 then [(n + '0' as int) as char]
    else Decimal(n / 10) + [(n % 10 + '0' as int) as char]
  }

  lemma {:induction false} LeadingNumberAppend(s: string, c: char, acc: nat)
    requires IsDigit(c) && forall i :: 0 <= i < |s| ==> IsDigit(s[i])
    ensures LeadingNumber(s + [c], acc) == 10 * LeadingNumber(s, acc) + DigitValue(c)
  {
    if s == "" {
      assert (s + [c])[1..] == "";
    } else {
      assert (s + [c])[1..] == s[1..] + [c];
      LeadingNumberAppend(s[1..], c, 10 * acc + DigitValue(s[0]));
    }
  }

  lemma {:induction false} DecimalReadsBack(n: nat)
    ensures Decimal(n) != "" && forall i :: 0 <= i < |Decimal(n)| ==> IsDigit(Decimal(n)[i])
    ensures LeadingNumber(Decimal(n), 0) == n
  {
    if n < 10 {
      assert Decimal(n)[1..] == "";
    } else {
      DecimalReadsBack(n / 10);
      LeadingNumberAppend(Decimal(n / 10), (n % 10 + '0' as int) as char, 0);
    }
  }

  /** A written content length is read back, unless it does not fit. */
  lemma StoulRoundTrip(n: nat)
    ensures Stoul(Decimal(n)) == if n < SIZE_MOD then Some(n) else None
  {
    DecimalReadsBack(n);
    assert IsDigit(Decimal(n)[0]);
  }

  /** What `strtoul` skips, and what it reads. */
  const WHITESPACE: string := " \t\n\U{000B}\U{000C}\r"
  const DIGITS: string := "0123456789"

  lemma Characters(c: char)
    ensures IsSpace(c) <==> c in WHITESPACE
    ensures IsDigit(c) <==> c in DIGITS
  {
    if IsSpace(c) {
      assert c == WHITESPACE[0] || c == WHITESPACE[1] || c == WHITESPACE[2]
          || c == WHITESPACE[3] || c == WHITESPACE[4] || c == WHITESPACE[5];
    }
    if IsDigit(c) {
      var d := DigitValue(c);
      assert DIGITS[d] == c;
    }
  }

  function ZeroDigits(z: nat): (s: string)
    ensures |s| == z && forall i :: 0 <= i < z ==> s[i] == '0'
  {
    seq(z, _ => '0')
  }

  lemma {:induction false} LeadingZeros(z: nat, s: string)
    ensures LeadingNumber(ZeroDigits(z) + s, 0) == LeadingNumber(s, 0)
    decreases z
  {
    var all := ZeroDigits(z) + s;
    if z == 0 {
      assert all == s;
    } else {
      assert all[1..] == ZeroDigits(z - 1) + s && all[0] == '0';
      LeadingZeros(z - 1, s);
    }
  }

  lemma {:induction false} LeadingNumberStops(s: string, rest: string, acc: nat)
    requires forall i :: 0 <= i < |s| ==> IsDigit(s[i])
    requires rest == "" || !IsDigit(rest[0])
    ensures LeadingNumber(s + rest, acc) == LeadingNumber(s, acc)
  {
    if s == "" {
      assert s + rest == rest;
    } else {
      assert (s + rest)[1..] == s[1..] + rest;
      LeadingNumberStops(s[1..], rest, 10 * acc + DigitValue(s[0]));
    }
  }

  lemma {:induction false} StoulSkips(spaces: string, s: string)
    requires forall c :: c in spaces ==> c in WHITESPACE
    ensures Stoul(spaces + s) == Stoul(s)
  {
    if spaces == "" {
      assert spaces + s == s;
    } else {
      assert spaces[0] in spaces;
      Characters(spaces[0]);
      assert (spaces + s)[1..] == spaces[1..] + s;
      StoulSkips(spaces[1..], s);
    }
  }

  lemma StoulSigned(sign: string, digits: string)
    requires sign == "" || sign == "+" || sign == "-"
    requires digits != "" && IsDigit(digits[0])
    ensures var n := LeadingNumber(digits, 0);
            Stoul(sign + digits) ==
            if n >= SIZE_MOD then None else Some(if sign == "-" then (SIZE_MOD - n) % SIZE_MOD else n)
  {
    var s := sign + digits;
    hide LeadingNumber;
    if sign == "" {
      assert s == digits;
    } else {
      assert s[0] == sign[0] && s[1..] == digits;
    }
  }

  /** `stoul` reads a number behind white space, a sign and zeros, whatever follows it; a
      minus negates it modulo 2^64; a number of 2^64 or more is an exception. */
  lemma StoulMeaning(spaces: string, sign: string, z: nat, n: nat, rest: string)
    requires forall c :: c in spaces ==> c in WHITESPACE
    requires sign == "" || sign == "+" || sign == "-"
    requires rest == "" || rest[0] !in DIGITS
    ensures Stoul(spaces + (sign + (ZeroDigits(z) + (Decimal(n) + rest)))) ==
            if n >= 0x1_0000_0000_0000_0000 then None
            else Some(if sign == "-" && n > 0 then 0x1_0000_0000_0000_0000 - n else n)
  {
    var digits := ZeroDigits(z) + (Decimal(n) + rest);
    DecimalReadsBack(n);
    assert (Decimal(n) + rest)[0] == Decimal(n)[0];
    assert digits[0] == '0' || digits[0] == Decimal(n)[0];
    hide Stoul, LeadingNumber, Decimal;
    StoulSkips(spaces, sign + digits);
    StoulSigned(sign, digits);
    LeadingZeros(z, Decimal(n) + rest);
    if rest != "" {
      Characters(rest[0]);
    }
    LeadingNumberStops(Decimal(n), rest, 0);
  }

  /** And without a digit there is an exception. */
  lemma StoulNeedsDigit(spaces: string, sign: string, rest: string)
    requires forall c :: c in spaces ==> c in WHITESPACE
    requires sign == "" || sign == "+" || sign == "-"
    requires rest == "" || rest[0] !in DIGITS
    requires sign == "" && rest != "" ==> rest[0] !in WHITESPACE && rest[0] != '+' && rest[0] != '-'
    ensures Stoul(spaces + (sign + rest)).None?
  {
    StoulSkips(spaces, sign + rest);
    if rest != "" {
      Characters(rest[0]);
    }
    if sign == "" {
      assert sign + rest == rest;
    } else {
      assert (sign + rest)[1..] == rest && (sign + rest)[0] == sign[0];
    }
  }
}
