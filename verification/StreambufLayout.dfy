/** `basic_streambuf`: one growable array with get and put pointers into it, on values. */
module StreambufLayout {
  import opened Numbers

  const BUFFER_DELTA: nat := 128
  const INT_MAX: nat := 0x7FFF_FFFF

  /** `buffer_`, and `gptr`, `egptr`, `pptr` and `epptr` as offsets from its start,
      where `eback` always is. */
  datatype Layout = Layout(buf: string, g: int, eg: int, p: int, ep: int, max: nat)

  ghost predicate Ok(l: Layout) {
    && 0 <= l.g <= l.eg <= l.p <= l.ep <= l.max
    && |l.buf| == Max(l.ep, 1)
  }

  /** `size()` */
  function Size(l: Layout): int {
    l.p - l.g
  }

  /** `data()` */
  function Data(l: Layout): string
    requires 0 <= l.g <= l.p <= |l.buf|
  {
    l.buf[l.g..l.p]
  }

  function NulChars(n: nat): string {
    seq(n, _ => '\0')
  }

  /** `vector::resize` */
  function Resize(buf: string, n: nat): (r: string)
    ensures |r| == n
  {
    if n <= |buf| then buf[..n] else buf + NulChars(n - |buf|)
  }

  function Construct(max: nat): Layout {
    var pend := Min(max, BUFFER_DELTA);
    Layout(NulChars(Max(pend, 1)), 0, 0, 0, pend, max)
  }

  /** The result of an operation that can throw: the layout it leaves behind either way. */
  datatype Outcome = Outcome(layout: Layout, threw: bool)

  /** `memmove` of the get area to the start of the array. */
  function Shift(buf: string, from: int, to: int): (r: string)
    requires 0 <= from <= to <= |buf|
    ensures |r| == |buf|
  {
    buf[from..to] + buf[to - from..]
  }

  /** `reserve` */
  function Reserve(l: Layout, n: nat): Outcome
    requires 0 <= l.g <= l.p <= |l.buf|
  {
    if n <= l.ep - l.p then Outcome(l, false)
    else
      var p := l.p - l.g;
      var buf := Shift(l.buf, l.g, l.p);
      if n <= l.ep - p then Outcome(Layout(buf, 0, p, p, l.ep, l.max), false)
      else if n <= l.max && p <= l.max - n then
        Outcome(Layout(Resize(buf, Max(p + n, 1)), 0, p, p, p + n, l.max), false)
      else Outcome(l.(buf := buf), true)
  }

  /** A user writes into the region that `prepare` returned. */
  function Fill(l: Layout, bytes: string): Layout
    requires 0 <= l.p && l.p + |bytes| <= |l.buf|
  {
    l.(buf := l.buf[..l.p] + bytes + l.buf[l.p + |bytes|..])
  }

  /** `static_cast<int>` of a `size_t` */
  function AsInt(n: nat): int {
    var low := n % 0x1_0000_0000;
    if low <= INT_MAX then low else low - 0x1_0000_0000
  }

  /** `commit` */
  function Commit(l: Layout, n: nat): Layout
    requires l.p <= l.ep
  {
    var p := l.p + AsInt(Min(n, l.ep - l.p));
    l.(p := p, eg := p)
  }

  /** `consume` */
  function Consume(l: Layout, n: nat): Layout
    requires l.g <= l.p
  {
    var moved := if l.g + n > l.p then l.p - l.g else n;
    l.(eg := if l.eg < l.p then l.p else l.eg, g := l.g + AsInt(moved))
  }

  /** `underflow`: what it returns is the first character of `data()`, or eof. */
  function Underflow(l: Layout): Layout {
    if l.g < l.p then l.(eg := l.p) else l
  }

  /** `overflow` of a character that is not eof. */
  function Overflow(l: Layout, c: char): Outcome
    requires Ok(l)
  {
    var r := if l.p != l.ep then Outcome(l, false)
             else if Size(l) < l.max && l.max - Size(l) < BUFFER_DELTA then Reserve(l, l.max - Size(l))
             else Reserve(l, BUFFER_DELTA);
    if r.threw || !(0 <= r.layout.p < |r.layout.buf|) then r
    else
      var t := r.layout;
      Outcome(t.(buf := t.buf[t.p := c], p := t.p + 1), false)
  }

  /** `read_size_helper` */
  function ReadSize(l: Layout, capacity: nat, m: nat): int {
    Min(Max(512, capacity - Size(l)), Min(m, l.max - Size(l)))
  }

  // ---- One call ----

  lemma ConstructOk(max: nat)
    ensures var l := Construct(max);
            && Ok(l) && Data(l) == "" && l.max == max && l.g == 0
            && l.ep - l.p == if max < 128 then max else 128
  {
  }

  lemma ShiftedData(buf: string, from: int, to: int)
    requires 0 <= from <= to <= |buf|
    ensures |Shift(buf, from, to)| == |buf| && Shift(buf, from, to)[..to - from] == buf[from..to]
  {
  }

  lemma ResizeKeeps(buf: string, n: nat, k: nat)
    requires k <= |buf| && k <= n
    ensures |Resize(buf, n)| == n && Resize(buf, n)[..k] == buf[..k]
  {
  }

  /** `reserve` throws exactly when the documented bound would be exceeded. When it
      does not, the room is there, inside the array, and whichever of its three
      paths was taken, what can be read is unchanged. */
  lemma ReserveExactly(l: Layout, n: nat)
    requires Ok(l)
    ensures var r := Reserve(l, n);
            && (r.threw <==> Size(l) + n > l.max)
            && (!r.threw ==> Ok(r.layout) && r.layout.max == l.max)
            && (!r.threw ==> Data(r.layout) == Data(l) && r.layout.ep - r.layout.p >= n)
            && (!r.threw ==> r.layout.ep == if Size(l) + n <= l.ep || l.p + n <= l.ep then l.ep else Size(l) + n)
            && (!r.threw ==> if l.p + n <= l.ep then r.layout == l else r.layout.g == 0 && r.layout.eg == r.layout.p)
  {
    hide Reserve, Shift, Resize, Data;
    ReserveCases(l, n);
    var p, t := l.p - l.g, Reserve(l, n).layout;
    var buf := Shift(l.buf, l.g, l.p);
    ShiftedData(l.buf, l.g, l.p);
    if l.ep - p < n <= l.max - p {
      ResizeKeeps(buf, Max(p + n, 1), p);
      DataAtFront(t, p);
      DataIs(l);
    } else if l.ep - l.p < n <= l.ep - p {
      DataAtFront(t, p);
      DataIs(l);
    }
  }

  /** The ways through `reserve`. */
  lemma ReserveCases(l: Layout, n: nat)
    requires Ok(l)
    ensures var r, p := Reserve(l, n), l.p - l.g;
            var buf := Shift(l.buf, l.g, l.p);
            r == if n <= l.ep - l.p then Outcome(l, false)
                 else if n <= l.ep - p then Outcome(Layout(buf, 0, p, p, l.ep, l.max), false)
                 else if n <= l.max - p then Outcome(Layout(Resize(buf, Max(p + n, 1)), 0, p, p, p + n, l.max), false)
                 else Outcome(l.(buf := buf), true)
  {
    hide Shift, Resize;
  }

  lemma DataIs(l: Layout)
    requires 0 <= l.g <= l.p <= |l.buf|
    ensures Data(l) == l.buf[l.g..l.p]
  {
  }

  lemma DataAtFront(l: Layout, p: int)
    requires 0 == l.g <= l.p == p <= |l.buf|
    ensures Data(l) == l.buf[..p]
  {
  }

  /** A throwing `reserve` has already moved the characters but not the pointers. It
      keeps the pointer invariant, and it leaves `data()` as it was exactly when
      nothing was consumed yet or the data repeats itself at that distance. */
  lemma ThrowingReserve(l: Layout, n: nat)
    requires Ok(l) && Size(l) + n > l.max
    ensures var t := Reserve(l, n).layout;
            && Ok(t) && t == l.(buf := t.buf) && |Data(t)| == |Data(l)|
            && (forall i :: 0 <= i < Size(l) ==>
                  Data(t)[i] == if i + l.g < Size(l) then Data(l)[i + l.g] else Data(l)[i])
            && (Data(t) == Data(l) <==>
                  l.g == 0 || forall i :: 0 <= i && i + l.g < Size(l) ==> Data(l)[i] == Data(l)[i + l.g])
  {
    ReserveCases(l, n);
    hide Reserve;
    var t := Reserve(l, n).layout;
    assert forall i :: 0 <= i < Size(l) ==> Data(t)[i] == t.buf[l.g + i];
    assert forall i :: 0 <= i && i + l.g < Size(l) ==> Data(t)[i] == Data(l)[i + l.g];
  }

  /** The casts to `int` in `commit` and `consume` are harmless exactly below 2^31. */
  lemma AsIntExactly(n: nat)
    ensures AsInt(n) == n <==> n <= INT_MAX
    ensures -0x8000_0000 <= AsInt(n) < 0x8000_0000 && (n - AsInt(n)) % 0x1_0000_0000 == 0
  {
  }

  /** `commit` moves as much as was asked for and there is room for, if and only if
      that fits an `int`. */
  lemma CommitExactly(l: Layout, n: nat)
    requires Ok(l)
    ensures var moved := Min(n, l.ep - l.p);
            && (Commit(l, n).p == l.p + moved <==> moved <= INT_MAX)
            && Commit(l, n) == l.(p := Commit(l, n).p, eg := Commit(l, n).p)
            && (Commit(l, n).p - l.p - moved) % 0x1_0000_0000 == 0
            && (moved <= INT_MAX ==> Ok(Commit(l, n)))
            && (moved <= INT_MAX ==> Data(Commit(l, n)) == Data(l) + l.buf[l.p..l.p + moved])
  {
    AsIntExactly(Min(n, l.ep - l.p));
  }

  lemma ConsumeExactly(l: Layout, n: nat)
    requires Ok(l)
    ensures var moved := Min(n, Size(l));
            && (Consume(l, n).g == l.g + moved <==> moved <= INT_MAX)
            && Consume(l, n) == l.(g := Consume(l, n).g, eg := l.p)
            && (Consume(l, n).g - l.g - moved) % 0x1_0000_0000 == 0
            && (moved <= INT_MAX ==> Ok(Consume(l, n)) && Data(Consume(l, n)) == Data(l)[moved..])
  {
    AsIntExactly(Min(n, Size(l)));
  }

  lemma UnderflowExactly(l: Layout)
    requires Ok(l)
    ensures var t := Underflow(l);
            && Ok(t) && Data(t) == Data(l)
            && (Data(l) != "" ==> t.buf[t.g..t.eg] == Data(l))
            && t == if Data(l) == "" then l else l.(eg := l.p)
  {
  }

  lemma OverflowExactly(l: Layout, c: char)
    requires Ok(l)
    ensures var r := Overflow(l, c);
            && (r.threw <==> Size(l) == l.max)
            && (!r.threw ==> Ok(r.layout) && r.layout.max == l.max && Data(r.layout) == Data(l) + [c])
            && (!r.threw ==> r.layout.ep - r.layout.p >= Min(l.ep - l.p, l.max - Size(l)) - 1)
            && (!r.threw && l.p == l.ep ==> r.layout.ep - r.layout.p >= Min(128, l.max - Size(l)) - 1)
            && (!r.threw ==> r.layout.ep <= Max(l.ep, Size(l) + Min(128, l.max - Size(l))))
            && (r.threw ==> r == Reserve(l, BUFFER_DELTA))
  {
    hide Reserve, Data;
    if l.p == l.ep {
      var n := if Size(l) < l.max && l.max - Size(l) < BUFFER_DELTA then l.max - Size(l) else BUFFER_DELTA;
      ReserveExactly(l, n);
      PutExtends(Reserve(l, n).layout, c, l.max > Size(l));
    } else {
      PutExtends(l, c, true);
    }
  }

  lemma PutExtends(t: Layout, c: char, room: bool)
    ensures Ok(t) && t.p < t.ep && room ==>
              var u := t.(buf := t.buf[t.p := c], p := t.p + 1); Ok(u) && Data(u) == Data(t) + [c]
  {
  }

  /** So many characters are wanted and fit, and there is storage for them or they are few. */
  predicate Welcome(l: Layout, capacity: nat, m: nat, k: int) {
    k <= m && k <= l.max - Size(l) && (k <= 512 || k <= capacity - Size(l))
  }

  /** Read sizing never overcommits, and it asks for something unless nothing was
      wanted or nothing fits; the `prepare` that follows does not throw. It asks for as much
      as is wanted and fits, up to 512 bytes or what there is storage for. */
  lemma ReadSizeNeverOvercommits(l: Layout, capacity: nat, m: nat)
    requires Ok(l) && capacity >= |l.buf|
    ensures var n := ReadSize(l, capacity, m);
            && 0 <= capacity - Size(l) && 0 <= l.max - Size(l)
            && 0 <= n <= m && n <= l.max - Size(l)
            && (n > 0 <==> m > 0 && Size(l) < l.max)
            && !Reserve(l, n).threw
            && Welcome(l, capacity, m, n) && forall k :: Welcome(l, capacity, m, k) ==> k <= n
  {
    ReserveExactly(l, ReadSize(l, capacity, m));
  }

  // ---- Whole runs: the buffer is a bounded queue ----

  datatype Call =
    | Prepare(n: nat)
    | FillAndCommit(bytes: string, n: nat)
    | ConsumeN(n: nat)
    | Put(c: char)
    | Peek

  datatype Reply = Nothing | Threw | Char(c: char) | EndOfFile

  /** What the documentation asks of a caller: what is committed was written into the
      prepared region before, and no single call moves 2^31 characters. */
  predicate Allowed(l: Layout, call: Call) {
    match call
    case FillAndCommit(bytes, n) =>
      && 0 <= l.p && |bytes| <= l.ep - l.p <= |l.buf| - l.p
      && (n <= |bytes| || |bytes| == l.ep - l.p)
      && Min(n, |bytes|) <= INT_MAX
    case ConsumeN(n) => Min(n, Size(l)) <= INT_MAX
    case _ => true
  }

  function Perform(l: Layout, call: Call): (Layout, Reply)
    requires Ok(l) && Allowed(l, call)
  {
    match call
    case Prepare(n) => var r := Reserve(l, n); (r.layout, if r.threw then Threw else Nothing)
    case FillAndCommit(bytes, n) => (Commit(Fill(l, bytes), n), Nothing)
    case ConsumeN(n) => (Consume(l, n), Nothing)
    case Put(c) => var r := Overflow(l, c); (r.layout, if r.threw then Threw else Nothing)
    case Peek => (Underflow(l), if l.g < l.p then Char(l.buf[l.g]) else EndOfFile)
  }

  /** A bounded first-in first-out queue, with everything that ever went in and came out. */
  datatype Queue = Queue(items: string, max: nat, fed: string, taken: string)

  function QueueStep(q: Queue, call: Call): (Queue, Reply) {
    match call
    case Prepare(n) => (q, if |q.items| + n > q.max then Threw else Nothing)
    case FillAndCommit(bytes, n) =>
      var more := bytes[..Min(n, |bytes|)];
      (q.(items := q.items + more, fed := q.fed + more), Nothing)
    case ConsumeN(n) =>
      var k := Min(n, |q.items|);
      (q.(items := q.items[k..], taken := q.taken + q.items[..k]), Nothing)
    case Put(c) =>
      if |q.items| == q.max then (q, Threw)
      else (q.(items := q.items + [c], fed := q.fed + [c]), Nothing)
    case Peek => (q, if q.items == "" then EndOfFile else Char(q.items[0]))
  }

  ghost predicate Represents(l: Layout, q: Queue) {
    Ok(l) && Data(l) == q.items && l.max == q.max && q.taken + q.items == q.fed
  }

  lemma FillCommit(l: Layout, bytes: string, n: nat)
    requires Ok(l) && Allowed(l, FillAndCommit(bytes, n))
    ensures var t := Commit(Fill(l, bytes), n);
            Ok(t) && t.max == l.max && Data(t) == Data(l) + bytes[..Min(n, |bytes|)]
  {
    var f := Fill(l, bytes);
    assert Data(f) == Data(l);
    assert f.buf[f.p..f.p + |bytes|] == bytes;
    CommitExactly(f, n);
    var k := Min(n, |bytes|);
    assert f.buf[f.p..f.p + k] == f.buf[f.p..f.p + |bytes|][..k];
  }

  lemma FedAndTaken(q: Queue, more: string, k: nat)
    requires q.taken + q.items == q.fed && k <= |q.items|
    ensures q.taken + (q.items + more) == q.fed + more
    ensures (q.taken + q.items[..k]) + q.items[k..] == q.fed
  {
    assert q.items == q.items[..k] + q.items[k..];
  }

  /** Each call answers as the queue does, and unless it throws it leaves what the
      queue holds. */
  lemma PerformRefines(l: Layout, q: Queue, call: Call)
    requires Represents(l, q) && Allowed(l, call)
    ensures Perform(l, call).1 == QueueStep(q, call).1
    ensures Perform(l, call).1 != Threw ==> Represents(Perform(l, call).0, QueueStep(q, call).0)
  {
    hide Reserve, Fill, Commit, Consume, Overflow;
    match call
    case Prepare(n) => ReserveExactly(l, n);
    case FillAndCommit(bytes, n) =>
      FillCommit(l, bytes, n);
      FedAndTaken(q, bytes[..Min(n, |bytes|)], 0);
    case ConsumeN(n) =>
      ConsumeExactly(l, n);
      ConsumeMax(l, n);
      FedAndTaken(q, "", Min(n, |q.items|));
    case Put(c) =>
      OverflowExactly(l, c);
      FedAndTaken(q, [c], 0);
    case Peek => UnderflowExactly(l);
  }

  lemma ConsumeMax(l: Layout, n: nat)
    requires Ok(l)
    ensures Consume(l, n).max == l.max
  {
  }

  /** Each call is allowed where it is made; an exception ends the sequence. */
  ghost predicate Callable(l: Layout, calls: seq<Call>)
    decreases |calls|
  {
    calls == [] ||
    (Ok(l) && Allowed(l, calls[0]) &&
     (Perform(l, calls[0]).1 == Threw || Callable(Perform(l, calls[0]).0, calls[1..])))
  }

  /** The answers to a sequence of calls, which ends at the first exception. */
  ghost function Answers(l: Layout, calls: seq<Call>): seq<Reply>
    requires Callable(l, calls)
    decreases |calls|
  {
    if calls == [] then []
    else
      var (t, reply) := Perform(l, calls[0]);
      [reply] + if reply == Threw then [] else Answers(t, calls[1..])
  }

  ghost function QueueAnswers(q: Queue, calls: seq<Call>): seq<Reply>
    decreases |calls|
  {
    if calls == [] then []
    else
      var (t, reply) := QueueStep(q, calls[0]);
      [reply] + if reply == Threw then [] else QueueAnswers(t, calls[1..])
  }

  /** The layout and the queue after a sequence of calls none of which threw. */
  ghost predicate Reaches(l: Layout, q: Queue, calls: seq<Call>, t: Layout, u: Queue)
    decreases |calls|
  {
    if calls == [] then t == l && u == q
    else
      && Ok(l) && Allowed(l, calls[0]) && Perform(l, calls[0]).1 != Threw
      && Reaches(Perform(l, calls[0]).0, QueueStep(q, calls[0]).0, calls[1..], t, u)
  }

  /** Refinement over whole runs: the buffer answers any sequence of calls as a
      bounded queue would, up to and including the first exception, although it
      shifts its contents, reallocates, and lets `egptr` lag. */
  lemma {:induction false} BufferRefinesQueue(l: Layout, q: Queue, calls: seq<Call>)
    requires Represents(l, q) && Callable(l, calls)
    ensures Answers(l, calls) == QueueAnswers(q, calls)
    decreases |calls|
  {
    hide Perform, QueueStep, Represents, Allowed;
    if calls != [] {
      PerformRefines(l, q, calls[0]);
      if Perform(l, calls[0]).1 != Threw {
        BufferRefinesQueue(Perform(l, calls[0]).0, QueueStep(q, calls[0]).0, calls[1..]);
      }
    }
  }

  /** Conservation over whole runs: after any calls that did not throw, everything
      consumed followed by `data()` is everything committed or put. */
  lemma {:induction false} NothingLostOrReordered(max: nat, calls: seq<Call>, t: Layout, u: Queue)
    requires Reaches(Construct(max), Queue("", max, "", ""), calls, t, u)
    ensures Ok(t) && t.max == max && Size(t) <= max && u.taken + Data(t) == u.fed
  {
    ConstructOk(max);
    ReachedRepresents(Construct(max), Queue("", max, "", ""), calls, t, u);
  }

  lemma {:induction false} ReachedRepresents(l: Layout, q: Queue, calls: seq<Call>, t: Layout, u: Queue)
    requires Represents(l, q) && Reaches(l, q, calls, t, u)
    ensures Represents(t, u) && u.max == q.max
    decreases |calls|
  {
    if calls != [] {
      PerformRefines(l, q, calls[0]);
      ReachedRepresents(Perform(l, calls[0]).0, QueueStep(q, calls[0]).0, calls[1..], t, u);
    }
  }

  // ---- Where it fails, on buffers that calls lead to ----

  lemma ReachesMore(l: Layout, q: Queue, call: Call, calls: seq<Call>, t: Layout, u: Queue)
    requires Ok(l) && Allowed(l, call) && Perform(l, call).1 != Threw
    requires Reaches(Perform(l, call).0, QueueStep(q, call).0, calls, t, u)
    ensures Reaches(l, q, [call] + calls, t, u)
  {
    hide Perform, QueueStep;
    assert ([call] + calls)[1..] == calls;
  }

  ghost predicate Reachable(max: nat, t: Layout) {
    exists calls, u :: Reaches(Construct(max), Queue("", max, "", ""), calls, t, u)
  }

  lemma Reached(max: nat, calls: seq<Call>, t: Layout, u: Queue)
    requires Reaches(Construct(max), Queue("", max, "", ""), calls, t, u)
    ensures Reachable(max, t)
  {
  }

  const THREE_LEFT: Layout := Layout("abcd", 1, 4, 4, 4, 4)

  lemma TwoCalls(max: nat, first: Call, second: Call, mid: Layout, t: Layout)
    requires Ok(Construct(max)) && Allowed(Construct(max), first) && Ok(mid) && Allowed(mid, second)
    requires Perform(Construct(max), first) == (mid, Nothing) && Perform(mid, second) == (t, Nothing)
    ensures Reachable(max, t)
  {
    var q := Queue("", max, "", "");
    var q1 := QueueStep(q, first).0;
    hide Construct, Perform, QueueStep, Ok, Allowed;
    ReachesMore(mid, q1, second, [], t, QueueStep(q1, second).0);
    ReachesMore(Construct(max), q, first, [second] + [], t, QueueStep(q1, second).0);
    Reached(max, [first] + ([second] + []), t, QueueStep(q1, second).0);
  }

  lemma ThreeLeftReachable()
    ensures Reachable(4, THREE_LEFT)
  {
    FourIn();
    OneOut();
    hide Construct, Perform, Ok, Allowed, Reachable;
    TwoCalls(4, FillAndCommit("abcd", 4), ConsumeN(1), Layout("abcd", 0, 4, 4, 4, 4), THREE_LEFT);
  }

  lemma ThreeLeftThrows()
    ensures var t := THREE_LEFT; Ok(t) && Reserve(t, 3).threw && Data(Reserve(t, 3).layout) != Data(t)
  {
    var t := THREE_LEFT;
    ThrowingReserve(t, 3);
    assert Data(t)[0] == 'b' && Data(t)[0 + t.g] == 'c';
  }

  /** `prepare` does not give the strong exception guarantee: after four characters
      have come in and one has gone, asking for three more changes the others. */
  lemma ThrowCanChangeData()
    ensures exists t, n: nat :: Reachable(4, t) && Ok(t) && Reserve(t, n).threw && Data(Reserve(t, n).layout) != Data(t)
  {
    ThreeLeftReachable();
    ThreeLeftThrows();
    hide Reserve, Reachable, Reaches, THREE_LEFT;
    var n: nat := 3;
    assert Reserve(THREE_LEFT, n).threw;
  }

  lemma FourIn()
    ensures var l := Construct(4);
            && Ok(l) && Allowed(l, FillAndCommit("abcd", 4))
            && Perform(l, FillAndCommit("abcd", 4)) == (Layout("abcd", 0, 4, 4, 4, 4), Nothing)
  {
    var l := Construct(4);
    assert Fill(l, "abcd").buf == "abcd";
  }

  lemma OneOut()
    ensures var l := Layout("abcd", 0, 4, 4, 4, 4);
            && Ok(l) && Allowed(l, ConsumeN(1))
            && Perform(l, ConsumeN(1)) == (Layout("abcd", 1, 4, 4, 4, 4), Nothing)
  {
  }

  /** A buffer that may hold 2^31 characters, after `prepare` of all of them. */
  lemma PreparedAll()
    ensures var n := INT_MAX + 1;
            var l, t := Construct(n), Perform(Construct(n), Prepare(n)).0;
            && Ok(l) && Perform(l, Prepare(n)).1 != Threw
            && Ok(t) && t.g == 0 && t.p == 0 && t.ep == n && t.max == n
  {
    var n := INT_MAX + 1;
    ConstructOk(n);
    ReserveExactly(Construct(n), n);
    hide Shift, Resize;
  }

  /** With 2^31 characters of room, committing them all moves the put pointer as far
      back instead of forward. */
  lemma CommitCanGoBack()
    ensures exists t, n: nat :: Reachable(n, t) && Ok(t) && n == t.ep - t.p && Commit(t, n).p == t.p - n
  {
    PreparedAll();
    var n := INT_MAX + 1;
    var l, q := Construct(n), Queue("", n, "", "");
    var t, u := Perform(l, Prepare(n)).0, QueueStep(q, Prepare(n)).0;
    ReachesMore(l, q, Prepare(n), [], t, u);
    Reached(n, [Prepare(n)] + [], t, u);
    hide Reachable, Reaches, Perform, QueueStep, Construct;
    assert Commit(t, n).p == t.p - n;
  }

  lemma Filled(l: Layout, k: nat)
    requires Ok(l) && k <= l.ep - l.p && k <= INT_MAX
    ensures Allowed(l, FillAndCommit(NulChars(k), k))
    ensures var t := Perform(l, FillAndCommit(NulChars(k), k)).0;
            && Perform(l, FillAndCommit(NulChars(k), k)).1 == Nothing
            && Ok(t) && t.g == l.g && t.p == l.p + k && t.ep == l.ep && t.max == l.max
  {
    FillCommit(l, NulChars(k), k);
    hide NulChars;
    CommitExactly(Fill(l, NulChars(k)), k);
  }

  /** And with 2^31 characters to read, so does consuming them all. */
  lemma ConsumeCanGoBack()
    ensures exists t, n: nat :: Reachable(n, t) && Ok(t) && n == Size(t) && Consume(t, n).g == t.g - n
  {
    PreparedAll();
    var n := INT_MAX + 1;
    var l, q := Construct(n), Queue("", n, "", "");
    var most, last := FillAndCommit(NulChars(INT_MAX), INT_MAX), FillAndCommit(NulChars(1), 1);
    var l1, q1 := Perform(l, Prepare(n)).0, QueueStep(q, Prepare(n)).0;
    Filled(l1, INT_MAX);
    hide Perform, QueueStep, NulChars, Ok;
    var l2, q2 := Perform(l1, most).0, QueueStep(q1, most).0;
    Filled(l2, 1);
    var t, u := Perform(l2, last).0, QueueStep(q2, last).0;
    ReachesMore(l2, q2, last, [], t, u);
    ReachesMore(l1, q1, most, [last] + [], t, u);
    ReachesMore(l, q, Prepare(n), [most] + ([last] + []), t, u);
    Reached(n, [Prepare(n)] + ([most] + ([last] + [])), t, u);
    hide Reachable, Reaches, Construct, Allowed;
    assert Consume(t, n).g == t.g - n;
  }
}
