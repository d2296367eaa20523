/** The packet buffer: a fixed 512-octet array and a cursor, the primitive
    reads every decoder is built on, and the name decoder that walks labels
    and compression pointers through it. */
module Packet {
  import opened Wire
  import opened Names

  class BytePacketBuffer {
    /** The message octets: filled once by the caller, never written by the reader. */
    const buf: array<byte>
    /** The cursor. Seek and Step do not check it, so it may be any integer. */
    var pos: int

    ghost predicate Valid() {
      buf.Length == BufferSize
    }

    /** A new buffer: every octet zero and the cursor at 0. */
    constructor ()
      ensures Valid() && fresh(buf) && pos == 0
      ensures forall i :: 0 <= i < BufferSize ==> buf[i] == 0
    {
      buf := new byte[BufferSize](i => 0);
      pos := 0;
    }

    /** The current position. */
    function Pos(): int
      reads this
    {
      pos
    }

    /** Moves the cursor by steps, unchecked. */
    method Step(steps: int)
      modifies this`pos
      ensures pos == old(pos) + steps
    {
      pos := pos + steps;
    }

    /** Moves the cursor to p, unchecked. */
    method Seek(p: int)
      modifies this`pos
      ensures pos == p
    {
      pos := p;
    }

    /** Reads the octet under the cursor and moves past it. At 512 or beyond
        the read fails and nothing moves; a negative cursor panics. */
    method Read() returns (r: Result<byte>)
      requires Valid()
      modifies this`pos
      ensures old(pos) >= BufferSize ==> r == Err(EndOfBuffer) && pos == old(pos)
      ensures old(pos) < 0 ==> r == Err(IndexOutOfRange) && pos == old(pos)
      ensures 0 <= old(pos) < BufferSize ==> r == Ok(buf[old(pos)]) && pos == old(pos) + 1
    {
      if pos >= BufferSize {
        return Err(EndOfBuffer);
      }
      if pos < 0 {
        return Err(IndexOutOfRange);
      }
      r := Ok(buf[pos]);
      pos := pos + 1;
    }

    /** The octet at index i, without moving the cursor. The check is on the
        cursor, not on i: an index outside the buffer panics. */
    method Get(i: int) returns (r: Result<byte>)
      requires Valid()
      ensures r == Peek(buf[..], pos, i)
    {
      if pos >= BufferSize {
        return Err(EndOfBuffer);
      }
      if !(0 <= i < BufferSize) {
        return Err(IndexOutOfRange);
      }
      r := Ok(buf[i]);
    }

    /** The len octets from index start, without moving the cursor. Refused
        when start + len reaches 512, so a range ending exactly at the end of
        the buffer is refused too; a negative start or length panics. */
    method GetRange(start: int, len: int) returns (r: Result<seq<byte>>)
      requires Valid()
      ensures r == PeekRange(buf[..], start, len)
    {
      if start + len >= BufferSize {
        return Err(EndOfBuffer);
      }
      if start < 0 || len < 0 {
        return Err(IndexOutOfRange);
      }
      r := Ok(buf[start..start + len]);
    }

    /** Two reads combined big-endian. A failing second read leaves the
        cursor moved by the first. */
    method ReadU16() returns (r: Result<uint16>)
      requires Valid()
      modifies this`pos
      ensures pos == Advance(old(pos), 2)
      ensures Fits(old(pos), 2) ==> r == Ok(WordAt(buf[..], old(pos)))
      ensures !Fits(old(pos), 2) ==> r == Err(ShortRead(old(pos)))
    {
      var high := Read();
      if high.Err? {
        return Err(high.error);
      }
      var low := Read();
      if low.Err? {
        return Err(low.error);
      }
      assert buf[..][old(pos)..old(pos) + 2] == [high.value, low.value];
      BigEndianPair(high.value, low.value);
      r := Ok(high.value * 0x100 + low.value);
    }

    /** ReadU16 typed as a record type code. */
    method ReadU16Query() returns (r: Result<QueryType>)
      requires Valid()
      modifies this`pos
      ensures pos == Advance(old(pos), 2)
      ensures Fits(old(pos), 2) ==> r == Ok(WordAt(buf[..], old(pos)))
      ensures !Fits(old(pos), 2) ==> r == Err(ShortRead(old(pos)))
    {
      var high := Read();
      if high.Err? {
        return Err(high.error);
      }
      var low := Read();
      if low.Err? {
        return Err(low.error);
      }
      assert buf[..][old(pos)..old(pos) + 2] == [high.value, low.value];
      BigEndianPair(high.value, low.value);
      r := Ok(high.value * 0x100 + low.value);
    }

    /** Four reads combined big-endian. A failing read leaves the cursor
        moved by the reads before it. */
    method ReadU32() returns (r: Result<uint32>)
      requires Valid()
      modifies this`pos
      ensures pos == Advance(old(pos), 4)
      ensures Fits(old(pos), 4) ==> r == Ok(DoubleWordAt(buf[..], old(pos)))
      ensures !Fits(old(pos), 4) ==> r == Err(ShortRead(old(pos)))
    {
      var b1 := Read();
      if b1.Err? {
        return Err(b1.error);
      }
      var b2 := Read();
      if b2.Err? {
        return Err(b2.error);
      }
      var b3 := Read();
      if b3.Err? {
        return Err(b3.error);
      }
      var b4 := Read();
      if b4.Err? {
        return Err(b4.error);
      }
      assert buf[..][old(pos)..old(pos) + 4] == [b1.value, b2.value, b3.value, b4.value];
      BigEndianQuad(b1.value, b2.value, b3.value, b4.value);
      r := Ok(((b1.value * 0x100 + b2.value) * 0x100 + b3.value) * 0x100 + b4.value);
    }

    /** Decodes the name at the cursor, appending its dotted text to name.
        Labels are read through Get and GetRange from a local position; the
        first compression pointer moves the real cursor past itself, and when
        no pointer was followed the cursor ends one past the terminating zero.
        On failure the text appended so far is kept. */
    method ReadQname(name: seq<byte>) returns (out: seq<byte>, err: Outcome)
      requires Valid()
      modifies this`pos
      ensures var w := NameAt(old(buf[..]), old(pos));
              out == name + w.text && err == w.outcome && pos == w.cursor
    {
      ghost var b := buf[..];
      var p := Pos();
      var delim: seq<byte> := [];
      var jumped := false;
      var jumpsPerformed: nat := 0;
      out := name;
      ghost var s := Reader(pos, p, jumped, jumpsPerformed, delim);
      while true
        invariant buf[..] == b
        invariant s == Reader(pos, p, jumped, jumpsPerformed, delim) && jumpsPerformed <= MaxJumps + 1
        invariant out + Run(b, s).text == name + NameAt(b, old(pos)).text
        invariant Run(b, s).cursor == NameAt(b, old(pos)).cursor
        invariant Run(b, s).outcome == NameAt(b, old(pos)).outcome
        decreases MaxJumps + 1 - jumpsPerformed, BufferSize - p
      {
        ghost var m := NextMove(b, s);
        ghost var before := out;
        if jumpsPerformed > MaxJumps {
          return out, Fail(JumpLimitExceeded);
        }
        var len := Get(p);
        assert len == Peek(b, s.cur, s.pos);
        if len.Err? {
          return out, Fail(len.error);
        }
        if IsPointer(len.value) {
          if !jumped {
            Seek(p + 2);
          }
          var offset := Get(p + 1);
          assert offset == Peek(b, pos, s.pos + 1);
          if offset.Err? {
            return out, Fail(offset.error);
          }
          p := PointerTarget(len.value, offset.value);
          jumped := true;
          jumpsPerformed := jumpsPerformed + 1;
          assert out == before + m.text;
        } else {
          p := p + 1;
          if len.value == 0 {
            break;
          }
          out := out + delim;
          var octets := GetRange(p, len.value);
          assert octets == PeekRange(b, s.pos + 1, len.value);
          if octets.Err? {
            return out, Fail(octets.error);
          }
          assert octets.value == b[p..p + len.value];
          AppendAssoc(before, delim, octets.value);
          out := out + octets.value;
          delim := [Dot];
          p := p + len.value;
          assert out == before + m.text;
        }
        AppendAssoc(before, m.text, Run(b, m.next).text);
        s := m.next;
      }
      if !jumped {
        Seek(p);
      }
      err := Pass;
    }
  }
}
