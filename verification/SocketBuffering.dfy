/** `basic_socket_streambuf` on values: what reaches the kernel and what is read from it. */
module SocketBuffering {
  import opened Numbers

  const BUFFER_SIZE: nat := 512
  const PUTBACK_MAX: nat := 8

  datatype Error = NoError | TimedOut | Eof | System(code: int)

  /** One turn of a send or receive loop, chosen by the environment: the expiry time
      has passed; the kernel took or delivered bytes; it would block and became
      ready; it would block and waiting failed; it failed. A loop that runs out
      of turns has expired. */
  datatype Turn =
    | Expired
    | Taken(count: nat)
    | Delivered(bytes: string)
    | Ready
    | NotReady(ec: Error)
    | Failed(ec: Error)

  /** How a loop ended: what it moved, the turns left over, and the error. */
  datatype Sending = Sending(count: nat, turns: seq<Turn>, ok: bool, ec: Error)

  /** The send loop of `overflow`. */
  function SendAll(data: string, turns: seq<Turn>, ec: Error): (r: Sending)
    ensures r.count <= |data|
    ensures r.ok <==> r.count == |data|
    decreases |turns|
  {
    if data == "" then Sending(0, turns, true, ec)
    else if turns == [] then Sending(0, [], false, TimedOut)
    else match turns[0]
      case Expired => Sending(0, turns[1..], false, TimedOut)
      case Taken(n) =>
        if n == 0 then Sending(0, turns[1..], false, NoError)
        else
          var k := Min(n, |data|);
          var r := SendAll(data[k..], turns[1..], NoError);
          r.(count := k + r.count)
      case Ready => SendAll(data, turns[1..], NoError)
      case NotReady(e) => Sending(0, turns[1..], false, e)
      case Failed(e) => Sending(0, turns[1..], false, e)
      case Delivered(_) => Sending(0, turns[1..], false, NoError)
  }

  // ---- What the loops do, turn by turn ----

  /** Everything the kernel takes in these turns. */
  function TakenSum(turns: seq<Turn>): nat {
    if turns == [] then 0
    else Takes(turns[0]) + TakenSum(turns[1..])
  }

  function Takes(turn: Turn): nat {
    if turn.Taken? then turn.count else 0
  }

  /** Turns after which the send loop tries again. */
  ghost predicate TriesAgain(turns: seq<Turn>) {
    forall i :: 0 <= i < |turns| ==> turns[i].Ready? || (turns[i].Taken? && turns[i].count > 0)
  }

  /** What a turn that ends a loop leaves as the error. */
  function ErrorOf(turn: Turn): Error {
    match turn
    case Expired => TimedOut
    case NotReady(e) => e
    case Failed(e) => e
    case _ => NoError
  }

  lemma SendAllTries(data: string, turns: seq<Turn>, ec: Error)
    requires turns != [] && TriesAgain(turns[..1]) && Takes(turns[0]) < |data|
    ensures var r := SendAll(data[Takes(turns[0])..], turns[1..], NoError);
            SendAll(data, turns, ec) == r.(count := Takes(turns[0]) + r.count)
  {
    assert turns[..1][0] == turns[0];
    assert data[0..] == data;
  }

  /** The send loop ends at the first turn that neither took bytes nor made the socket
      ready, with all that was taken before, the turns behind it, and its error; without
      such a turn the time runs out. */
  lemma {:induction false} SendingStops(data: string, before: seq<Turn>, after: seq<Turn>, ec: Error)
    requires TriesAgain(before) && TakenSum(before) < |data|
    requires after != [] ==> !after[0].Ready? && !(after[0].Taken? && after[0].count > 0)
    ensures SendAll(data, before + after, ec) ==
            Sending(TakenSum(before), if after == [] then [] else after[1..], false,
                    if after == [] then TimedOut else ErrorOf(after[0]))
    decreases |before|
  {
    var turns := before + after;
    if before == [] {
      assert turns == after;
    } else {
      assert turns[0] == before[0] && turns[1..] == before[1..] + after;
      SendAllTries(data, turns, ec);
      hide SendAll;
      SendingStops(data[Takes(before[0])..], before[1..], after, NoError);
    }
  }

  /** And it succeeds with the turn in which the last byte was taken. */
  lemma {:induction false} SendingEnds(data: string, before: seq<Turn>, last: nat, after: seq<Turn>, ec: Error)
    requires TriesAgain(before) && TakenSum(before) < |data| <= TakenSum(before) + last
    ensures SendAll(data, before + ([Taken(last)] + after), ec) == Sending(|data|, after, true, NoError)
    decreases |before|
  {
    var turns := before + ([Taken(last)] + after);
    if before == [] {
      assert turns == [Taken(last)] + after;
      assert turns[0] == Taken(last) && turns[1..] == after;
    } else {
      assert turns[0] == before[0] && turns[1..] == before[1..] + ([Taken(last)] + after);
      SendAllTries(data, turns, ec);
      hide SendAll;
      SendingEnds(data[Takes(before[0])..], before[1..], last, after, NoError);
    }
  }

  /** The output side: buffered or not, the put area, everything the kernel took, and
      everything the user put successfully. */
  datatype Out = Out(buffered: bool, pending: string, sent: string, put: string, turns: seq<Turn>, ec: Error)

  datatype Answer = Answer(out: Out, ok: bool)

  /** `overflow`; `[]` stands for eof. */
  function Overflow(o: Out, c: string): Answer
    requires |c| <= 1
  {
    if !o.buffered && c == "" then Answer(o, true)
    else
      var data := if o.buffered then o.pending else c;
      var r := SendAll(data, o.turns, o.ec);
      var t := o.(sent := o.sent + data[..r.count], turns := r.turns, ec := r.ec);
      if !r.ok then Answer(t, false)
      else Answer(t.(pending := if o.buffered then c else "", put := o.put + c), true)
  }

  /** `sputc`: into the put area if there is room, else `overflow`. */
  function Put(o: Out, c: char): Answer {
    if o.buffered && |o.pending| < BUFFER_SIZE
    then Answer(o.(pending := o.pending + [c], put := o.put + [c]), true)
    else Overflow(o, [c])
  }

  function Sync(o: Out): Answer {
    Overflow(o, "")
  }

  /** `setbuf(0, 0)` switches buffering off, unless something is pending. */
  function SetBuf(o: Out): Answer {
    if o.pending == "" then Answer(o.(buffered := false), true) else Answer(o, false)
  }

  ghost predicate Ok(o: Out) {
    |o.pending| <= BUFFER_SIZE && (!o.buffered ==> o.pending == "")
  }

  /** Nothing lost, nothing twice, nothing out of order. */
  ghost predicate Conserved(o: Out) {
    o.sent + o.pending == o.put
  }

  function Open(turns: seq<Turn>): Out {
    Out(true, "", "", "", turns, NoError)
  }

  datatype Call = PutC(c: char) | SyncAll | Unbuffer

  function Perform(o: Out, call: Call): Answer {
    match call
    case PutC(c) => Put(o, c)
    case SyncAll => Sync(o)
    case Unbuffer => SetBuf(o)
  }

  /** A call that succeeds keeps the bytes together; a flush or an unbuffered put that
      succeeds leaves nothing pending but its own character. */
  lemma PerformConserves(o: Out, call: Call)
    requires Ok(o) && Conserved(o) && Perform(o, call).ok
    ensures Ok(Perform(o, call).out) && Conserved(Perform(o, call).out)
    ensures call.PutC? ==> Perform(o, call).out.put == o.put + [call.c]
    ensures call.SyncAll? ==> Perform(o, call).out.sent == o.put == Perform(o, call).out.put
    ensures call.Unbuffer? ==> !Perform(o, call).out.buffered && Perform(o, call).out.sent == o.sent
  {
    var data := if o.buffered then o.pending else if call.PutC? then [call.c] else "";
    assert data[..|data|] == data;
    if call.PutC? {
      assert o.sent + (o.pending + [call.c]) == o.sent + o.pending + [call.c];
      assert o.sent + "" == o.sent;
    }
  }

  /** When the kernel is asked: a character that fits the put area stays there, and so
      does everything when buffering is switched off; every other call hands on all that
      is pending, or its own character in unbuffered mode. */
  lemma SendsExactly(o: Out, call: Call)
    requires Ok(o)
    ensures var r := Perform(o, call);
            var data := if o.buffered then o.pending else if call.PutC? then [call.c] else "";
            if call.Unbuffer? || (call.PutC? && o.buffered && |o.pending| < 512)
            then r.out.sent == o.sent && r.out.turns == o.turns && r.out.ec == o.ec
                 && (call.PutC? ==> r.ok && r.out.pending == o.pending + [call.c])
            else var s := SendAll(data, o.turns, o.ec);
                 && r.ok == s.ok && r.out.sent == o.sent + data[..s.count]
                 && r.out.turns == s.turns && r.out.ec == s.ec
                 && (r.ok ==> r.out.pending == if call.PutC? && o.buffered then [call.c] else "")
  {
    if !o.buffered && call.SyncAll? {
      assert o.sent + "" == o.sent;
    }
  }

  /** A call that fails has sent a prefix of what was pending, and changed nothing
      else of what was put. In unbuffered mode it has sent nothing. */
  lemma FailureSendsPrefix(o: Out, call: Call)
    requires Ok(o) && !Perform(o, call).ok
    ensures var t := Perform(o, call).out;
            && Ok(t) && t.pending == o.pending && t.put == o.put && t.buffered == o.buffered
            && (exists k :: 0 <= k <= |o.pending| && t.sent == o.sent + o.pending[..k])
            && (!o.buffered ==> t.sent == o.sent)
            && (call.Unbuffer? ==> t == o && o.pending != "")
  {
    var t := Perform(o, call).out;
    if call.Unbuffer? {
      assert t.sent == o.sent + o.pending[..0];
    } else {
      var c := if call.PutC? then [call.c] else "";
      var data := if o.buffered then o.pending else c;
      var r := SendAll(data, o.turns, o.ec);
      assert t.sent == o.sent + data[..r.count];
      if !o.buffered {
        assert data == c && |c| == 1 && r.count == 0;
        assert t.sent == o.sent + o.pending[..0];
      } else {
        assert t.sent == o.sent + o.pending[..r.count];
      }
    }
  }

  /** The first turn that is not a wait takes bytes. */
  predicate FirstSends(turns: seq<Turn>)
    decreases |turns|
  {
    turns != [] && match turns[0]
      case Ready => FirstSends(turns[1..])
      case Taken(n) => n > 0
      case _ => false
  }

  lemma {:induction false} SendsSomething(data: string, turns: seq<Turn>, ec: Error)
    requires data != ""
    ensures SendAll(data, turns, ec).count > 0 <==> FirstSends(turns)
    decreases |turns|
  {
    if turns != [] && turns[0].Ready? {
      SendsSomething(data, turns[1..], NoError);
    }
  }

  /** A failing call keeps the bytes together exactly if nothing is buffered, or the call
      does not flush, or the kernel takes nothing before the failure. Otherwise the
      bytes it took are still pending, and the next flush that succeeds sends them again. */
  lemma FailureConservesExactly(o: Out, call: Call)
    requires Ok(o) && Conserved(o) && !Perform(o, call).ok
    ensures Conserved(Perform(o, call).out) <==> !o.buffered || call.Unbuffer? || !FirstSends(o.turns)
    ensures Sync(Perform(o, call).out).ok && o.buffered ==>
              Sync(Perform(o, call).out).out.sent == Perform(o, call).out.sent + o.pending
  {
    FailureSendsPrefix(o, call);
    var t := Perform(o, call).out;
    if o.buffered && !call.Unbuffer? {
      SendsSomething(o.pending, o.turns, o.ec);
      var r := SendAll(o.pending, o.turns, o.ec);
      assert t.sent == o.sent + o.pending[..r.count];
      assert |t.sent| == |o.sent| + r.count;
      if r.count == 0 {
        assert t.sent == o.sent;
      } else {
        assert |t.sent + t.pending| > |o.sent + o.pending|;
      }
    }
    assert t.pending[..|t.pending|] == t.pending;
  }

  /** For example: of two pending characters the kernel takes one, then sending fails;
      the next flush succeeds, and the peer has received the first one twice. */
  lemma ResendsAfterFailure()
    ensures var o := Out(true, "ab", "", "ab", [Taken(1), Failed(System(32)), Taken(2)], NoError);
            var failed, again := Sync(o), Sync(Sync(o).out);
            && Ok(o) && Conserved(o)
            && !failed.ok && failed.out.sent == "a" && failed.out.pending == "ab"
            && again.ok && again.out.sent == "aab" && again.out.put == "ab"
  {
    var turns := [Taken(1), Failed(System(32)), Taken(2)];
    var o := Out(true, "ab", "", "ab", turns, NoError);
    assert turns[1..] == [Failed(System(32)), Taken(2)] && turns[1..][1..] == [Taken(2)];
    assert "ab"[1..] == "b" && "ab"[..1] == "a";
    var first := SendAll("ab", turns, NoError);
    assert SendAll("b", turns[1..], NoError) == Sending(0, [Taken(2)], false, System(32));
    assert first == Sending(1, [Taken(2)], false, System(32));
    assert Sync(o).out.sent == "a";
    assert "ab"[2..] == "" && [Taken(2)][1..] == [];
    assert SendAll("ab", [Taken(2)], System(32)) == Sending(2, [], true, NoError);
  }

  /** The state after a sequence of calls, if none of them failed. */
  ghost predicate Reaches(o: Out, calls: seq<Call>, t: Out)
    decreases |calls|
  {
    if calls == [] then t == o
    else Perform(o, calls[0]).ok && Reaches(Perform(o, calls[0]).out, calls[1..], t)
  }

  /** The characters the calls put. */
  function Characters(calls: seq<Call>): string {
    if calls == [] then ""
    else (if calls[0].PutC? then [calls[0].c] else "") + Characters(calls[1..])
  }

  lemma {:induction false} ReachedConserves(o: Out, calls: seq<Call>, t: Out)
    requires Ok(o) && Conserved(o) && Reaches(o, calls, t)
    ensures Ok(t) && Conserved(t) && t.put == o.put + Characters(calls)
    decreases |calls|
  {
    if calls != [] {
      hide Perform, Ok, Conserved;
      PerformConserves(o, calls[0]);
      PutGrows(o, calls[0]);
      var u := Perform(o, calls[0]).out;
      ReachedConserves(u, calls[1..], t);
      var c := if calls[0].PutC? then [calls[0].c] else "";
      assert o.put + c + Characters(calls[1..]) == o.put + (c + Characters(calls[1..]));
    }
  }

  lemma PutGrows(o: Out, call: Call)
    requires Perform(o, call).ok
    ensures Perform(o, call).out.put == o.put + (if call.PutC? then [call.c] else "")
  {
  }

  /** Output conservation over whole runs: for every pattern of partial sends, retries
      and mode changes, as long as no call has failed, the bytes handed to the
      kernel followed by the put area are the characters the user has put. */
  lemma OutputConservation(turns: seq<Turn>, calls: seq<Call>, t: Out)
    requires Reaches(Open(turns), calls, t)
    ensures t.sent + t.pending == Characters(calls)
  {
    ReachedConserves(Open(turns), calls, t);
  }

  // ---- Input ----

  /** The input side: the unread part of the get area, everything the kernel
      delivered, and everything the user took. */
  datatype In = In(unread: string, received: string, taken: string, turns: seq<Turn>, ec: Error)

  /** The receive loop of `underflow`: at most what fits behind the putback area. */
  function Receive(turns: seq<Turn>, ec: Error): (string, seq<Turn>, Error)
    decreases |turns|
  {
    if turns == [] then ("", [], TimedOut)
    else match turns[0]
      case Expired => ("", turns[1..], TimedOut)
      case Delivered(bytes) =>
        if bytes == "" then ("", turns[1..], Eof)
        else (bytes[..Min(|bytes|, BUFFER_SIZE - PUTBACK_MAX)], turns[1..], NoError)
      case Ready => Receive(turns[1..], NoError)
      case NotReady(e) => ("", turns[1..], e)
      case Failed(e) => ("", turns[1..], e)
      case Taken(_) => ("", turns[1..], NoError)
  }

  /** The first turn that is not just the socket getting ready. */
  ghost predicate StopsAt(turns: seq<Turn>, k: nat) {
    && k <= |turns| && (forall i :: 0 <= i < k ==> turns[i].Ready?)
    && (k < |turns| ==> !turns[k].Ready?)
  }

  /** What a receive loop makes of the turn it ends with: 504 bytes fit. */
  ghost predicate ReceivedIn(unread: string, left: seq<Turn>, ec: Error, turns: seq<Turn>, k: nat)
    requires k <= |turns|
  {
    if k == |turns| then unread == "" && left == [] && ec == TimedOut
    else
      && left == turns[k + 1..]
      && match turns[k]
         case Delivered(bytes) =>
           unread == bytes[..if |bytes| < 504 then |bytes| else 504] && ec == if bytes == "" then Eof else NoError
         case turn => unread == "" && ec == ErrorOf(turn)
  }

  /** The receive loop waits while the socket only gets ready, and ends with the first
      other turn. */
  lemma {:induction false} ReceiveExactly(turns: seq<Turn>, k: nat, ec: Error)
    requires StopsAt(turns, k)
    ensures var (unread, left, error) := Receive(turns, ec); ReceivedIn(unread, left, error, turns, k)
    decreases k
  {
    if k > 0 {
      ReceiveExactly(turns[1..], k - 1, NoError);
      if k < |turns| {
        assert turns[1..][k - 1] == turns[k] && turns[1..][k..] == turns[k + 1..];
      }
    }
  }

  lemma {:induction false} StopExists(turns: seq<Turn>) returns (k: nat)
    ensures StopsAt(turns, k)
    decreases |turns|
  {
    k := 0;
    if turns != [] && turns[0].Ready? {
      k := StopExists(turns[1..]);
      assert forall i :: 0 < i < |turns| ==> turns[i] == turns[1..][i - 1];
      k := k + 1;
    }
  }

  /** What `underflow` does to an empty get area, in terms of the turns: the bytes of the
      first delivery become readable and are counted as received, and there are none exactly
      if what comes first is an end or an error. */
  ghost predicate Refilled(i: In, t: In) {
    exists k: nat ::
      && StopsAt(i.turns, k) && ReceivedIn(t.unread, t.turns, t.ec, i.turns, k)
      && t.received == i.received + t.unread && t.taken == i.taken
      && (t.unread == "" <==> k == |i.turns| || !i.turns[k].Delivered? || i.turns[k].bytes == "")
  }

  lemma UnderflowExactly(i: In)
    ensures i.unread != "" ==> Underflow(i) == i
    ensures i.unread == "" ==> Refilled(i, Underflow(i))
  {
    if i.unread == "" {
      var k := StopExists(i.turns);
      ReceiveExactly(i.turns, k, i.ec);
      hide Receive;
      var t := Underflow(i);
      assert ReceivedIn(t.unread, t.turns, t.ec, i.turns, k);
    }
  }

  /** `underflow`. It refuses to refill a get area that is not used up. */
  function Underflow(i: In): In {
    if i.unread != "" then i
    else
      var (bytes, turns, ec) := Receive(i.turns, i.ec);
      i.(unread := bytes, received := i.received + bytes, turns := turns, ec := ec)
  }

  /** `sbumpc`: `None` is eof. */
  function Bump(i: In): In {
    var t := if i.unread == "" then Underflow(i) else i;
    if t.unread == "" then t
    else t.(unread := t.unread[1..], taken := t.taken + [t.unread[0]])
  }

  function Bumps(i: In, n: nat): In
    decreases n
  {
    if n == 0 then i else Bumps(Bump(i), n - 1)
  }

  lemma BumpConserves(i: In)
    requires i.taken + i.unread == i.received
    ensures Bump(i).taken + Bump(i).unread == Bump(i).received
    ensures |Bump(i).taken| == |i.taken| <==> Bump(i).unread == "" && i.unread == "" && Underflow(i).unread == ""
    ensures i.unread != "" ==> Bump(i).received == i.received && Bump(i).turns == i.turns
  {
    var t := if i.unread == "" then Underflow(i) else i;
    assert t.taken + t.unread == t.received;
    if t.unread != "" {
      assert t.unread == [t.unread[0]] + t.unread[1..];
      assert t.taken + ([t.unread[0]] + t.unread[1..]) == t.taken + [t.unread[0]] + t.unread[1..];
    }
  }

  /** Input conservation: however many characters are read and in whatever pieces they
      were delivered, what the user took followed by the get area is what the kernel
      delivered. */
  lemma {:induction false} InputConservation(i: In, n: nat)
    requires i.taken + i.unread == i.received
    ensures var t := Bumps(i, n); t.taken + t.unread == t.received
    decreases n
  {
    if n > 0 {
      BumpConserves(i);
      InputConservation(Bump(i), n - 1);
    }
  }
}
