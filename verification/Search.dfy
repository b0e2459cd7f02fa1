/** Substring search: `std::string::find`, and the restartable `partial_search`
    with which Asio's `async_read_until` looks for its delimiter. */
module Search {

  datatype Option<+T> = None | Some(value: T)

  /** `pat` occurs in `text` at index `j`. */
  predicate Matches(text: string, pat: string, j: nat) {
    j + |pat| <= |text| && text[j..j + |pat|] == pat
  }

  /** Everything `text` has from index `j` on agrees with the start of `pat`. */
  predicate Agrees(text: string, pat: string, j: nat) {
    j <= |text| && forall k :: 0 <= k < |pat| && j + k < |text| ==> text[j + k] == pat[k]
  }

  /** The first occurrence of `pat` at or after `from`, as `std::string::find`. */
  function Find(text: string, pat: string, from: nat): (r: Option<nat>)
    ensures r.Some? ==> from <= r.value && Matches(text, pat, r.value)
    ensures r.Some? ==> forall j: nat :: from <= j < r.value ==> !Matches(text, pat, j)
    ensures r.None? ==> forall j: nat :: from <= j ==> !Matches(text, pat, j)
    decreases |text| - from
  {
    if from + |pat| > |text| then None
    else if Matches(text, pat, from) then Some(from)
    else Find(text, pat, from + 1)
  }

  lemma FindIs(text: string, pat: string, from: nat, at: nat)
    requires from <= at && Matches(text, pat, at)
    requires forall j: nat :: from <= j < at ==> !Matches(text, pat, j)
    ensures Find(text, pat, from) == Some(at)
  {
    var r := Find(text, pat, from);
    assert r.Some?;
    assert !(r.value < at);
    assert !(at < r.value);
  }

  lemma MatchesPrefix(text: string, more: string, pat: string, j: nat)
    requires j + |pat| <= |text|
    ensures Matches(text + more, pat, j) == Matches(text, pat, j)
  {
    assert (text + more)[j..j + |pat|] == text[j..j + |pat|];
  }

  /** Reading more text does not move an occurrence that was already found. */
  lemma FindAppend(text: string, more: string, pat: string, from: nat)
    requires Find(text, pat, from).Some?
    ensures Find(text + more, pat, from) == Find(text, pat, from)
  {
    var at := Find(text, pat, from).value;
    MatchesPrefix(text, more, pat, at);
    forall j: nat | from <= j < at ensures !Matches(text + more, pat, j) {
      MatchesPrefix(text, more, pat, j);
    }
    FindIs(text + more, pat, from, at);
  }

  /** An occurrence in a part is an occurrence in the whole. */
  lemma MatchesInside(pre: string, text: string, pat: string, j: nat)
    requires Matches(text, pat, j)
    ensures Matches(pre + text, pat, |pre| + j)
  {
    assert (pre + text)[|pre| + j..|pre| + j + |pat|] == text[j..j + |pat|];
  }

  lemma MatchesPointwise(text: string, pat: string, j: nat)
    ensures Matches(text, pat, j) <==>
            j + |pat| <= |text| && forall k :: 0 <= k < |pat| ==> text[j + k] == pat[k]
  {
    if j + |pat| <= |text| {
      var part := text[j..j + |pat|];
      assert forall k :: 0 <= k < |pat| ==> part[k] == text[j + k];
      if forall k :: 0 <= k < |pat| ==> text[j + k] == pat[k] {
        assert part == pat;
      }
    }
  }

  /** The result of one scan: where it stopped, and whether there is a full match there. */
  datatype Scan = Scan(pos: nat, full: bool)

  /** `partial_search`: the first index at or after `from` where `text` either
      contains `pat` or ends while still agreeing with it; else the end. */
  function PartialSearch(text: string, pat: string, from: nat): (r: Scan)
    requires from <= |text|
    ensures from <= r.pos <= |text|
    ensures forall j :: from <= j < r.pos ==> !Agrees(text, pat, j)
    ensures Agrees(text, pat, r.pos)
    ensures r.full ==> r.pos + |pat| <= |text|
    ensures !r.full ==> |text| < r.pos + |pat| || r.pos == |text|
    decreases |text| - from
  {
    if from == |text| then Scan(from, false)
    else if Agrees(text, pat, from) then Scan(from, from + |pat| <= |text|)
    else PartialSearch(text, pat, from + 1)
  }

  /** The two nested loops of `partial_search`. */
  method PartialSearchLoop(text: string, pat: string, from: nat) returns (r: Scan)
    requires from <= |text|
    ensures r == PartialSearch(text, pat, from)
  {
    var i := from;
    while i != |text|
      invariant from <= i <= |text|
      invariant PartialSearch(text, pat, i) == PartialSearch(text, pat, from)
    {
      var k := 0;
      while true
        invariant 0 <= k <= |pat| && i + k <= |text|
        invariant forall m :: 0 <= m < k ==> text[i + m] == pat[m]
        decreases |pat| - k
      {
        if k == |pat| {
          return Scan(i, true);
        }
        if i + k == |text| {
          return Scan(i, false);
        }
        if text[i + k] != pat[k] {
          break;
        }
        k := k + 1;
      }
      i := i + 1;
    }
    r := Scan(|text|, false);
  }

  /** What an unfinished `async_read_until` knows when it asks for more bytes: no
      occurrence so far, and `pos` is the first place where one could begin. */
  ghost predicate Searched(text: string, pat: string, pos: nat) {
    && pos <= |text| && Agrees(text, pat, pos)
    && (forall j: nat :: !Matches(text, pat, j))
    && (forall j: nat :: j < pos ==> !Agrees(text, pat, j))
  }

  lemma SearchedNothing(pat: string)
    requires pat != ""
    ensures Searched("", pat, 0)
  {
  }

  lemma MismatchStays(text: string, more: string, pat: string, j: nat)
    requires j <= |text| && !Agrees(text, pat, j)
    ensures !Agrees(text + more, pat, j) && !Matches(text + more, pat, j)
  {
    var k :| 0 <= k < |pat| && j + k < |text| && text[j + k] != pat[k];
    assert (text + more)[j + k] != pat[k];
    MatchesPointwise(text + more, pat, j);
  }

  /** Resuming at the remembered position is as good as searching the whole
      buffer again, however the stream was cut: the scan reports a match exactly
      when the buffer has one, it reports the first, and otherwise the position
      it leaves is good for the next round. */
  lemma ResumedScanIsFullSearch(text: string, more: string, pat: string, pos: nat)
    requires pat != "" && Searched(text, pat, pos)
    ensures var whole := text + more;
            var r := PartialSearch(whole, pat, pos);
            && r.full == Find(whole, pat, 0).Some?
            && (r.full ==> Find(whole, pat, 0) == Some(r.pos))
            && (!r.full ==> Searched(whole, pat, r.pos))
  {
    var whole := text + more;
    var r := PartialSearch(whole, pat, pos);
    forall j: nat | j < r.pos ensures !Agrees(whole, pat, j) && !Matches(whole, pat, j) {
      if j < pos {
        MismatchStays(text, more, pat, j);
      } else {
        MatchesPointwise(whole, pat, j);
      }
    }
    MatchesPointwise(whole, pat, r.pos);
    if r.full {
      FindIs(whole, pat, 0, r.pos);
    } else {
      forall j: nat ensures !Matches(whole, pat, j) {
        if r.pos <= j {
          assert !(j + |pat| <= |whole|);
        }
      }
    }
  }
}
