/** `basic_streambuf` as the class it is: the array is shifted, reallocated and
    written in place. The arithmetic of `reserve` is done in `size_t`, so that
    verifying it also shows that none of it wraps. */
module Streambuf {
  import opened Numbers
  import opened StreambufLayout

  newtype SizeT = x: int | 0 <= x < 0x1_0000_0000_0000_0000

  lemma ShiftNothing(buf: string, to: int)
    requires 0 <= to <= |buf|
    ensures Shift(buf, 0, to) == buf
  {
  }

  /** Whether it throws or not. */
  lemma ReserveKeepsOk(l: Layout, n: nat)
    requires Ok(l)
    ensures Ok(Reserve(l, n).layout)
  {
    ReserveExactly(l, n);
    if Size(l) + n > l.max {
      ThrowingReserve(l, n);
    }
  }

  class BasicStreambuf {
    const maxSize: SizeT
    var buffer: array<char>
    var gptr: int
    var egptr: int
    var pptr: int
    var epptr: int

    ghost function Abs(): Layout
      reads this, buffer
    {
      Layout(buffer[..], gptr, egptr, pptr, epptr, maxSize as int)
    }

    ghost predicate Valid()
      reads this, buffer
    {
      Ok(Abs())
    }

    constructor (maximumSize: SizeT)
      ensures Abs() == Construct(maximumSize as int) && Valid() && fresh(buffer)
    {
      maxSize := maximumSize;
      var pend: SizeT := if maximumSize < 128 then maximumSize else 128;
      buffer := new char[if pend > 1 then pend else 1](_ => '\0');
      gptr, egptr, pptr, epptr := 0, 0, 0, pend as int;
    }

    function SizeOf(): (n: int)
      requires Valid()
      reads this, buffer
      ensures 0 <= n <= maxSize as int && n == |Data(Abs())|
    {
      pptr - gptr
    }

    /** `std::memmove` of the get area to the front. */
    method MoveToFront(from: SizeT, count: SizeT)
      requires from as int + count as int <= buffer.Length
      modifies buffer
      ensures buffer[..] == Shift(old(buffer[..]), from as int, from as int + count as int)
    {
      forall i | 0 <= i < count as int {
        buffer[i] := buffer[from as int + i];
      }
      assert buffer[..count] == old(buffer[from as int..from as int + count as int]);
      assert buffer[count..] == old(buffer[count as int..]);
    }

    /** `std::vector::resize` to more elements. */
    method Grow(n: SizeT)
      requires buffer.Length <= n as int
      modifies this`buffer
      ensures fresh(buffer) && buffer[..] == Resize(old(buffer[..]), n as int)
    {
      var previous := buffer;
      var bigger := new char[n](_ => '\0');
      forall i | 0 <= i < previous.Length {
        bigger[i] := previous[i];
      }
      buffer := bigger;
      assert buffer[..] == Resize(previous[..], n as int);
    }

    method Reserve(n: SizeT) returns (threw: bool)
      requires Valid()
      modifies this, buffer
      ensures Outcome(Abs(), threw) == StreambufLayout.Reserve(old(Abs()), n as int)
      ensures buffer == old(buffer) || fresh(buffer)
      ensures Valid()
    {
      hide Shift, Resize, Data;
      ghost var before := Abs();
      ShiftNothing(before.buf, before.p);
      if epptr - pptr < n as int {
        ReserveKeepsOk(before, n as int);
      }
      var gnext, pnext, pend := gptr as SizeT, pptr as SizeT, epptr as SizeT;
      if n <= pend - pnext {
        return false;
      }
      if gnext > 0 {
        pnext := pnext - gnext;
        MoveToFront(gnext, pnext);
      }
      assert buffer[..] == Shift(before.buf, before.g, before.p);
      if n > pend - pnext {
        if n <= maxSize && pnext <= maxSize - n {
          pend := pnext + n;
          Grow(if pend > 1 then pend else 1);
        } else {
          return true;
        }
      }
      gptr, egptr := 0, pnext as int;
      pptr, epptr := pnext as int, pend as int;
      threw := false;
    }

    /** `prepare`: the region starts at `pptr`. */
    method Prepare(n: SizeT) returns (threw: bool, begin: int)
      requires Valid()
      modifies this, buffer
      ensures Outcome(Abs(), threw) == StreambufLayout.Reserve(old(Abs()), n as int)
      ensures Valid() && (buffer == old(buffer) || fresh(buffer))
      ensures threw <==> old(SizeOf()) + n as int > maxSize as int
      ensures !threw ==> begin == pptr && begin + n as int <= buffer.Length && Data(Abs()) == old(Data(Abs()))
    {
      ReserveExactly(Abs(), n as int);
      threw := Reserve(n);
      begin := pptr;
    }

    method Commit(n: SizeT)
      requires Valid()
      modifies this`pptr, this`egptr
      ensures Abs() == StreambufLayout.Commit(old(Abs()), n as int)
      ensures Min(n as int, old(epptr - pptr)) <= INT_MAX ==> Valid()
    {
      CommitExactly(Abs(), n as int);
      var m := if n as int < epptr - pptr then n as int else epptr - pptr;
      pptr := pptr + AsInt(m);
      egptr := pptr;
    }

    method Consume(n: SizeT)
      requires Valid()
      modifies this`gptr, this`egptr
      ensures Abs() == StreambufLayout.Consume(old(Abs()), n as int)
      ensures Min(n as int, old(SizeOf())) <= INT_MAX ==> Valid()
    {
      ConsumeExactly(Abs(), n as int);
      if egptr < pptr {
        egptr := pptr;
      }
      var m := n as int;
      if gptr + m > pptr {
        m := pptr - gptr;
      }
      gptr := gptr + AsInt(m);
    }

    /** `underflow`; `None` is eof. */
    method Underflow() returns (c: Reply)
      requires Valid()
      modifies this`egptr
      ensures Abs() == StreambufLayout.Underflow(old(Abs())) && Valid()
      ensures c == if old(Data(Abs())) == "" then EndOfFile else Char(old(Data(Abs()))[0])
    {
      if gptr < pptr {
        egptr := pptr;
        c := Char(buffer[gptr]);
      } else {
        c := EndOfFile;
      }
    }

    /** `overflow` of a character that is not eof. */
    method Overflow(c: char) returns (threw: bool)
      requires Valid()
      modifies this, buffer
      ensures Outcome(Abs(), threw) == StreambufLayout.Overflow(old(Abs()), c)
      ensures Valid() && (buffer == old(buffer) || fresh(buffer))
      ensures threw <==> old(SizeOf()) == maxSize as int
      ensures !threw ==> Data(Abs()) == old(Data(Abs())) + [c]
    {
      hide StreambufLayout.Reserve, Shift, Resize, Data;
      OverflowExactly(Abs(), c);
      ReserveExactly(Abs(), 128);
      if Size(Abs()) < maxSize as int {
        ReserveExactly(Abs(), maxSize as int - Size(Abs()));
      }
      if pptr == epptr {
        var bufferSize := (pptr - gptr) as SizeT;
        if bufferSize < maxSize && maxSize - bufferSize < 128 {
          threw := Reserve(maxSize - bufferSize);
        } else {
          threw := Reserve(128);
        }
        if threw {
          return;
        }
      }
      Store(c);
      threw := false;
    }

    /** `*pptr() = c; pbump(1)` */
    method Store(c: char)
      requires 0 <= pptr < buffer.Length
      modifies this`pptr, buffer
      ensures Abs() == old(Abs()).(buf := old(buffer[..])[old(pptr) := c], p := old(pptr) + 1)
    {
      buffer[pptr] := c;
      pptr := pptr + 1;
    }
  }
}
