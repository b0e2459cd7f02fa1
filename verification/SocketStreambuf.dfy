/** `basic_socket_streambuf` as the class it is: two arrays, pointers into them, and
    the send and receive loops. */
module SocketStreambuf {
  import opened Numbers
  import opened SocketBuffering

  lemma MoreDone(data: string, done: nat, k: nat)
    requires done + k <= |data|
    ensures data[done..][k..] == data[done + k..]
    ensures data[..done] + data[done..done + k] == data[..done + k]
  {
  }

  class BasicSocketStreambuf {
    const getBuffer: array<char>
    var putBuffer: array<char>
    var pptr: nat
    var gptr: nat
    var egptr: nat
    var ec: Error
    var turns: seq<Turn>
    ghost var sent: string
    ghost var put: string
    ghost var received: string
    ghost var taken: string

    ghost predicate Valid()
      reads this, putBuffer, getBuffer
    {
      && getBuffer.Length == BUFFER_SIZE && getBuffer != putBuffer
      && putBuffer.Length in {0, BUFFER_SIZE}
      && pptr <= putBuffer.Length
      && gptr <= egptr <= BUFFER_SIZE
    }

    ghost function Output(): Out
      requires Valid()
      reads this, putBuffer, getBuffer
    {
      Out(putBuffer.Length > 0, putBuffer[..pptr], sent, put, turns, ec)
    }

    ghost function Input(): In
      requires Valid()
      reads this, putBuffer, getBuffer
    {
      In(getBuffer[gptr..egptr], received, taken, turns, ec)
    }

    constructor (turns: seq<Turn>)
      ensures Valid() && Output() == Open(turns) && Input() == In("", "", "", turns, NoError)
      ensures putBuffer.Length == 512 && pptr == 0 && gptr == egptr == 8
    {
      getBuffer := new char[BUFFER_SIZE](_ => '\0');
      putBuffer := new char[BUFFER_SIZE](_ => '\0');
      pptr, gptr, egptr := 0, PUTBACK_MAX, PUTBACK_MAX;
      ec := NoError;
      this.turns := turns;
      sent, put, received, taken := "", "", "", "";
    }

    /** The loop of `overflow` that hands `data` to the kernel. */
    method Send(data: string) returns (ok: bool)
      modifies this`turns, this`ec, this`sent
      ensures var r := SendAll(data, old(turns), old(ec));
              ok == r.ok && turns == r.turns && ec == r.ec && sent == old(sent) + data[..r.count]
    {
      var done := 0;
      while done < |data|
        invariant 0 <= done <= |data|
        invariant sent == old(sent) + data[..done]
        invariant var r, q := SendAll(data, old(turns), old(ec)), SendAll(data[done..], turns, ec);
                  r == q.(count := done + q.count)
        decreases |turns|
      {
        if turns == [] {
          ec := TimedOut;
          return false;
        }
        var turn := turns[0];
        turns := turns[1..];
        match turn
        case Expired =>
          ec := TimedOut;
          return false;
        case Taken(n) =>
          ec := NoError;
          if n == 0 {
            return false;
          }
          var k := Min(n, |data| - done);
          MoreDone(data, done, k);
          sent := sent + data[done..done + k];
          done := done + k;
        case Ready => ec := NoError;
        case NotReady(e) =>
          ec := e;
          return false;
        case Failed(e) =>
          ec := e;
          return false;
        case Delivered(_) =>
          ec := NoError;
          return false;
      }
      assert data[done..] == "" && data[..done] == data;
      ok := true;
    }

    /** `overflow`; `[]` stands for eof. */
    method Overflow(c: string) returns (ok: bool)
      requires Valid() && |c| <= 1
      modifies this`turns, this`ec, this`sent, this`put, this`pptr, putBuffer
      ensures Valid() && Answer(Output(), ok) == SocketBuffering.Overflow(old(Output()), c)
      ensures getBuffer[..] == old(getBuffer[..])
    {
      if putBuffer.Length == 0 {
        if c == "" {
          return true;
        }
        ok := Send(c);
        if ok {
          put := put + c;
        }
        return;
      }
      ok := Send(putBuffer[..pptr]);
      if !ok {
        return;
      }
      pptr := 0;
      put := put + c;
      if c != "" {
        putBuffer[0] := c[0];
        pptr := 1;
        assert putBuffer[..1] == c;
      }
    }

    /** `sputc` */
    method Put(c: char) returns (ok: bool)
      requires Valid()
      modifies this`turns, this`ec, this`sent, this`put, this`pptr, putBuffer
      ensures Valid() && Answer(Output(), ok) == SocketBuffering.Put(old(Output()), c)
    {
      if pptr < putBuffer.Length {
        putBuffer[pptr] := c;
        pptr := pptr + 1;
        put := put + [c];
        assert putBuffer[..pptr] == old(putBuffer[..pptr]) + [c];
        return true;
      }
      ok := Overflow([c]);
    }

    method Sync() returns (ok: bool)
      requires Valid()
      modifies this`turns, this`ec, this`sent, this`put, this`pptr, putBuffer
      ensures Valid() && Answer(Output(), ok) == SocketBuffering.Sync(old(Output()))
    {
      ok := Overflow("");
    }

    /** `setbuf(0, 0)` */
    method SetBuf() returns (ok: bool)
      requires Valid()
      modifies this
      ensures Valid() && Answer(Output(), ok) == SocketBuffering.SetBuf(old(Output()))
      ensures Input() == old(Input())
    {
      if pptr != 0 {
        return false;
      }
      putBuffer := new char[0];
      ghost var before := Output();
      ok := Overflow("");
      assert put == before.put;
    }

    /** What the kernel delivers goes behind the putback area, as far as it fits. */
    method Refill(bytes: string)
      requires Valid() && bytes != ""
      modifies this`ec, this`received, this`gptr, this`egptr, getBuffer
      ensures var n := Min(|bytes|, BUFFER_SIZE - PUTBACK_MAX);
              && Valid() && gptr == PUTBACK_MAX && egptr == PUTBACK_MAX + n && ec == NoError
              && getBuffer[gptr..egptr] == bytes[..n] && received == old(received) + bytes[..n]
      ensures putBuffer[..] == old(putBuffer[..])
    {
      var n := Min(|bytes|, BUFFER_SIZE - PUTBACK_MAX);
      forall i | 0 <= i < n {
        getBuffer[PUTBACK_MAX + i] := bytes[i];
      }
      gptr, egptr := PUTBACK_MAX, PUTBACK_MAX + n;
      ec := NoError;
      received := received + bytes[..n];
    }

    /** `underflow` */
    method Underflow()
      requires Valid()
      modifies this`turns, this`ec, this`received, this`gptr, this`egptr, getBuffer
      ensures Valid() && Input() == SocketBuffering.Underflow(old(Input()))
      ensures old(gptr == egptr) ==> Refilled(old(Input()), Input())
      ensures old(gptr == egptr) && gptr != egptr ==> gptr == PUTBACK_MAX
      ensures old(gptr != egptr) || gptr == egptr ==> gptr == old(gptr) && egptr == old(egptr)
      ensures putBuffer[..] == old(putBuffer[..])
    {
      UnderflowExactly(Input());
      hide Refilled;
      if gptr != egptr {
        return;
      }
      while true
        invariant gptr == old(gptr) && egptr == old(egptr) && received == old(received)
        invariant getBuffer[..] == old(getBuffer[..])
        invariant SocketBuffering.Receive(turns, ec) == SocketBuffering.Receive(old(turns), old(ec))
        decreases |turns|
      {
        if turns == [] {
          ec := TimedOut;
          return;
        }
        var turn := turns[0];
        turns := turns[1..];
        match turn
        case Expired =>
          ec := TimedOut;
          return;
        case Delivered(bytes) =>
          if bytes == "" {
            ec := Eof;
            return;
          }
          Refill(bytes);
          return;
        case Ready => ec := NoError;
        case NotReady(e) =>
          ec := e;
          return;
        case Failed(e) =>
          ec := e;
          return;
        case Taken(_) =>
          ec := NoError;
          return;
      }
    }

    /** `sbumpc`; the empty string is eof. */
    method Bump() returns (c: string)
      requires Valid()
      modifies this`turns, this`ec, this`received, this`taken, this`gptr, this`egptr, getBuffer
      ensures Valid() && Input() == SocketBuffering.Bump(old(Input()))
      ensures taken == old(taken) + c
    {
      if gptr == egptr {
        Underflow();
      }
      if gptr == egptr {
        return "";
      }
      c := [getBuffer[gptr]];
      taken := taken + c;
      gptr := gptr + 1;
    }
  }
}
