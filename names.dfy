/** Domain-name decompression (section 4.1.4 of RFC 1035) as the reader
    performs it, stated as a pure function of the buffer contents and the
    cursors, together with the properties the decoder promises: encoded names
    decode to their dotted text, a compression pointer moves the real cursor
    only past itself, and pointer chains are cut off after five jumps. */
module Names {
  import opened Wire

  /** The decoder gives up once more than this many pointers were followed. */
  const MaxJumps: nat := 5

  /** The label separator '.'. */
  const Dot: byte := 0x2E

  /** The octet at index i, read while the real cursor is cur. Only the cursor
      is bounds-checked; an index outside the buffer is a panic. */
  function Peek(b: seq<byte>, cur: int, i: int): Result<byte>
    requires |b| == BufferSize
  {
    if cur >= BufferSize then Err(EndOfBuffer)
    else if 0 <= i < BufferSize then Ok(b[i])
    else Err(IndexOutOfRange)
  }

  /** The len octets from index start. The range is refused as soon as
      start + len reaches 512, so a range ending at the last octet is refused
      as well; a negative start or length is a slice-bounds panic. */
  function PeekRange(b: seq<byte>, start: int, len: int): Result<seq<byte>>
    requires |b| == BufferSize
  {
    if start + len >= BufferSize then Err(EndOfBuffer)
    else if start < 0 || len < 0 then Err(IndexOutOfRange)
    else Ok(b[start..start + len])
  }

  /** The two top bits of a length octet are 11 (`len & 0xC0 == 0xC0`). */
  predicate IsPointer(len: byte) {
    len >= 0xC0
  }

  /** The offset a pointer designates, `((len ^ 0xC0) << 8) | next`:
      the low six bits of the first octet followed by the second octet. */
  function PointerTarget(len: byte, next: byte): (t: nat)
    requires IsPointer(len)
    ensures t < 0x4000
  {
    (len - 0xC0) * 0x100 + next
  }

  /** What one decode produces: the text appended to the output string, the
      real cursor afterwards and the verdict. The text is kept on failure too,
      because the decoder appends as it goes. */
  datatype Walk = Walk(text: seq<byte>, cursor: int, outcome: Outcome)

  function Prepend(t: seq<byte>, w: Walk): Walk {
    w.(text := t + w.text)
  }

  /** A state of the decoding loop: cur is the buffer's real cursor, pos the
      local read position, jumped whether a pointer was followed, jumps how
      many, delim the separator to emit before the next label. */
  datatype Reader = Reader(cur: int, pos: int, jumped: bool, jumps: nat, delim: seq<byte>)

  /** What one iteration of the loop does: stop with the rest of the decode,
      or emit some text and go on from a new state. */
  datatype Move = Stop(result: Walk) | Emit(text: seq<byte>, next: Reader)

  /** One iteration of the decoding loop. Each label strictly advances pos
      inside the buffer and each pointer uses up one of the six jumps. */
  function NextMove(b: seq<byte>, s: Reader): (m: Move)
    requires |b| == BufferSize && s.jumps <= MaxJumps + 1
    ensures m.Emit? ==> m.next.jumps <= MaxJumps + 1
    ensures m.Emit? ==> m.next.jumps == s.jumps + 1
                        || (m.next.jumps == s.jumps && s.pos < m.next.pos < BufferSize)
  {
    if s.jumps > MaxJumps then Stop(Walk([], s.cur, Fail(JumpLimitExceeded)))
    else match Peek(b, s.cur, s.pos)
      case Err(e) => Stop(Walk([], s.cur, Fail(e)))
      case Ok(len) =>
        if IsPointer(len) then
          // the first pointer moves the real cursor past itself before its
          // second octet is read
          var cur' := if s.jumped then s.cur else s.pos + 2;
          match Peek(b, cur', s.pos + 1)
          case Err(e) => Stop(Walk([], cur', Fail(e)))
          case Ok(next) => Emit([], Reader(cur', PointerTarget(len, next), true, s.jumps + 1, s.delim))
        else if len == 0 then
          Stop(Walk([], if s.jumped then s.cur else s.pos + 1, Pass))
        else
          match PeekRange(b, s.pos + 1, len)
          case Err(e) => Stop(Walk(s.delim, s.cur, Fail(e)))
          case Ok(octets) => Emit(s.delim + octets, s.(pos := s.pos + 1 + len, delim := [Dot]))
  }

  /** The decoding loop run from state s to its end. */
  function Run(b: seq<byte>, s: Reader): Walk
    requires |b| == BufferSize && s.jumps <= MaxJumps + 1
    decreases MaxJumps + 1 - s.jumps, BufferSize - s.pos
  {
    match NextMove(b, s)
    case Stop(w) => w
    case Emit(t, s') => Prepend(t, Run(b, s'))
  }

  /** The loop run from the state given component by component. */
  function NameWalk(b: seq<byte>, cur: int, pos: int, jumped: bool, jumps: nat, delim: seq<byte>): Walk
    requires |b| == BufferSize
    requires jumps <= MaxJumps + 1
  {
    Run(b, Reader(cur, pos, jumped, jumps, delim))
  }

  /** Decoding the name that starts at the real cursor p. */
  function NameAt(b: seq<byte>, p: int): Walk
    requires |b| == BufferSize
  {
    NameWalk(b, p, p, false, 0, [])
  }

  // ---------------------------------------------------------------------
  // Reference encoding of names

  /** A label the decoder reads as one: 1 to 191 octets, so that its length
      octet is neither the terminator nor a pointer. */
  predicate ValidLabel(l: seq<byte>) {
    0 < |l| < 0xC0
  }

  predicate ValidLabels(ls: seq<seq<byte>>) {
    forall i :: 0 <= i < |ls| ==> ValidLabel(ls[i])
  }

  /** The labels, each preceded by its length octet, without the terminator. */
  function EncodeLabels(ls: seq<seq<byte>>): seq<byte>
    requires ValidLabels(ls)
  {
    if ls == [] then [] else [|ls[0]| as byte] + ls[0] + EncodeLabels(ls[1..])
  }

  /** An uncompressed name: its labels and the terminating zero octet. */
  function EncodeName(ls: seq<seq<byte>>): seq<byte>
    requires ValidLabels(ls)
  {
    EncodeLabels(ls) + [0]
  }

  /** The two octets of a compression pointer to offset t. */
  function EncodePointer(t: nat): seq<byte>
    requires t < 0x4000
  {
    [0xC0 + t / 0x100, t % 0x100]
  }

  /** The labels joined, each preceded by delim for the first and '.' after. */
  function Dotted(ls: seq<seq<byte>>, delim: seq<byte>): seq<byte> {
    if ls == [] then [] else delim + ls[0] + Dotted(ls[1..], [Dot])
  }

  /** The dotted text of a name, as "www.example.com". */
  function JoinLabels(ls: seq<seq<byte>>): seq<byte> {
    Dotted(ls, [])
  }

  // ---------------------------------------------------------------------
  // Properties of the decoder

  /** A pointer's two octets designate exactly the offset they encode. */
  lemma PointerRoundTrip(t: nat)
    requires t < 0x4000
    ensures IsPointer(EncodePointer(t)[0])
    ensures PointerTarget(EncodePointer(t)[0], EncodePointer(t)[1]) == t
  {
  }

  lemma {:induction false} DottedAppend(front: seq<seq<byte>>, back: seq<seq<byte>>, delim: seq<byte>)
    ensures Dotted(front + back, delim)
         == Dotted(front, delim) + Dotted(back, if front == [] then delim else [Dot])
    decreases front
  {
    if front == [] {
      assert front + back == back;
    } else {
      assert (front + back)[1..] == front[1..] + back;
      DottedAppend(front[1..], back, [Dot]);
    }
  }

  /** One label stored at pos is read whole and appended after delim. */
  lemma WalkOneLabel(b: seq<byte>, cur: int, pos: int, jumped: bool, jumps: nat,
                     delim: seq<byte>, l: seq<byte>)
    requires |b| == BufferSize && cur < BufferSize && jumps <= MaxJumps
    requires ValidLabel(l) && 0 <= pos && pos + 1 + |l| < BufferSize
    requires b[pos] == |l| && b[pos + 1..pos + 1 + |l|] == l
    ensures NameWalk(b, cur, pos, jumped, jumps, delim)
         == Prepend(delim + l, NameWalk(b, cur, pos + 1 + |l|, jumped, jumps, [Dot]))
  {
    assert PeekRange(b, pos + 1, |l|) == Ok(l);
  }

  lemma ValidLabelsTail(ls: seq<seq<byte>>)
    requires ValidLabels(ls) && ls != []
    ensures ValidLabel(ls[0]) && ValidLabels(ls[1..])
  {
    forall i | 0 <= i < |ls| - 1 ensures ValidLabel(ls[1..][i]) {
      assert ls[1..][i] == ls[i + 1];
    }
  }

  /** Where the encoding of ls is stored at pos, its first label is stored at
      pos with its length octet and the encoding of the rest follows it. */
  lemma SplitEncodedLabels(b: seq<byte>, pos: int, ls: seq<seq<byte>>)
    requires ValidLabels(ls) && ls != []
    requires 0 <= pos && pos + |EncodeLabels(ls)| <= |b|
    requires b[pos..pos + |EncodeLabels(ls)|] == EncodeLabels(ls)
    ensures ValidLabel(ls[0]) && ValidLabels(ls[1..])
    ensures b[pos] == |ls[0]|
    ensures b[pos + 1..pos + 1 + |ls[0]|] == ls[0]
    ensures |EncodeLabels(ls)| == 1 + |ls[0]| + |EncodeLabels(ls[1..])|
    ensures var next := pos + 1 + |ls[0]|;
            b[next..next + |EncodeLabels(ls[1..])|] == EncodeLabels(ls[1..])
  {
    ValidLabelsTail(ls);
    var l, e, er := ls[0], EncodeLabels(ls), EncodeLabels(ls[1..]);
    assert e == [|l| as byte] + l + er;
    StoredSlice(b, pos, e, 0, 1);
    assert e[0..1] == [e[0]];
    StoredSlice(b, pos, e, 1, 1 + |l|);
    assert e[1..1 + |l|] == l;
    assert |e| == 1 + |l| + |er|;
    StoredSlice(b, pos, e, 1 + |l|, |e|);
    assert e[1 + |l|..|e|] == er;
    var next := pos + 1 + |l|;
    assert b[next..next + |er|] == b[pos + (1 + |l|)..pos + |e|];
  }

  lemma AppendAssoc(s: seq<byte>, t: seq<byte>, u: seq<byte>)
    ensures (s + t) + u == s + (t + u)
  {
  }

  lemma PrependAssoc(s: seq<byte>, t: seq<byte>, w: Walk)
    ensures Prepend(s, Prepend(t, w)) == Prepend(s + t, w)
  {
    assert s + (t + w.text) == (s + t) + w.text;
  }

  /** Labels stored from pos are read one after the other, producing their
      dotted text and leaving everything else as it was. */
  lemma {:induction false} WalkLabels(b: seq<byte>, cur: int, pos: int, jumped: bool, jumps: nat,
                                      delim: seq<byte>, ls: seq<seq<byte>>)
    requires |b| == BufferSize && cur < BufferSize && jumps <= MaxJumps
    requires ValidLabels(ls)
    requires 0 <= pos && pos + |EncodeLabels(ls)| < BufferSize
    requires b[pos..pos + |EncodeLabels(ls)|] == EncodeLabels(ls)
    ensures NameWalk(b, cur, pos, jumped, jumps, delim)
         == Prepend(Dotted(ls, delim),
                    NameWalk(b, cur, pos + |EncodeLabels(ls)|, jumped, jumps, if ls == [] then delim else [Dot]))
    decreases ls
  {
    if ls == [] {
      var here := NameWalk(b, cur, pos, jumped, jumps, delim);
      assert [] + here.text == here.text;
    } else {
      SplitEncodedLabels(b, pos, ls);
      var l, rest := ls[0], ls[1..];
      var next := pos + 1 + |l|;
      WalkOneLabel(b, cur, pos, jumped, jumps, delim, l);
      WalkLabels(b, cur, next, jumped, jumps, [Dot], rest);
      PrependAssoc(delim + l, Dotted(rest, [Dot]),
                   NameWalk(b, cur, next + |EncodeLabels(rest)|, jumped, jumps, [Dot]));
    }
  }

  /** An uncompressed name decodes to its dotted text; the real cursor ends one
      past the terminating zero unless a pointer was followed earlier. */
  lemma WalkName(b: seq<byte>, cur: int, pos: int, jumped: bool, jumps: nat,
                 delim: seq<byte>, ls: seq<seq<byte>>)
    requires |b| == BufferSize && cur < BufferSize && jumps <= MaxJumps
    requires ValidLabels(ls)
    requires 0 <= pos && pos + |EncodeName(ls)| <= BufferSize
    requires b[pos..pos + |EncodeName(ls)|] == EncodeName(ls)
    ensures NameWalk(b, cur, pos, jumped, jumps, delim)
         == Walk(Dotted(ls, delim), if jumped then cur else pos + |EncodeName(ls)|, Pass)
  {
    var n := |EncodeLabels(ls)|;
    assert b[pos..pos + n] == EncodeName(ls)[..n] == EncodeLabels(ls);
    assert b[pos + n] == EncodeName(ls)[n] == 0;
    WalkLabels(b, cur, pos, jumped, jumps, delim, ls);
  }

  /** Round trip: decoding an uncompressed name stored at the cursor gives its
      dotted text and leaves the cursor one past the terminating zero. */
  lemma DecodeEncodedName(b: seq<byte>, p: int, ls: seq<seq<byte>>)
    requires |b| == BufferSize && ValidLabels(ls)
    requires 0 <= p && p + |EncodeName(ls)| <= BufferSize
    requires b[p..p + |EncodeName(ls)|] == EncodeName(ls)
    ensures NameAt(b, p) == Walk(JoinLabels(ls), p + |EncodeName(ls)|, Pass)
  {
    WalkName(b, p, p, false, 0, [], ls);
  }

  /** Following one pointer: the first pointer moves the real cursor just past
      its two octets, later ones leave it where it is. */
  lemma WalkPointer(b: seq<byte>, cur: int, q: int, jumped: bool, jumps: nat, delim: seq<byte>, t: nat)
    requires |b| == BufferSize && cur < BufferSize && jumps <= MaxJumps
    requires 0 <= q && q + 2 <= BufferSize && t < 0x4000
    requires (if jumped then cur else q + 2) < BufferSize
    requires b[q..q + 2] == EncodePointer(t)
    ensures NameWalk(b, cur, q, jumped, jumps, delim)
         == NameWalk(b, if jumped then cur else q + 2, t, true, jumps + 1, delim)
  {
    assert b[q] == EncodePointer(t)[0] && b[q + 1] == EncodePointer(t)[1];
    PointerRoundTrip(t);
  }

  /** A name whose first labels are stored at p and whose remaining labels are
      reached through a pointer decodes to the whole dotted name, exactly as
      the uncompressed name would, and the real cursor lands just past the
      pointer, not in the region it designates. */
  lemma DecodeCompressedName(b: seq<byte>, p: int, front: seq<seq<byte>>, q: int,
                             t: nat, back: seq<seq<byte>>)
    requires |b| == BufferSize && ValidLabels(front) && ValidLabels(back)
    requires 0 <= p && q == p + |EncodeLabels(front)| && q + 2 < BufferSize
    requires b[p..q] == EncodeLabels(front)
    requires t < 0x4000 && b[q..q + 2] == EncodePointer(t)
    requires t + |EncodeName(back)| <= BufferSize && b[t..t + |EncodeName(back)|] == EncodeName(back)
    ensures NameAt(b, p) == Walk(JoinLabels(front + back), q + 2, Pass)
  {
    var d: seq<byte> := if front == [] then [] else [Dot];
    var tail := Walk(Dotted(back, d), q + 2, Pass);
    WalkLabels(b, p, p, false, 0, [], front);
    WalkPointer(b, p, q, false, 0, d, t);
    WalkName(b, q + 2, t, true, 1, d, back);
    assert NameWalk(b, p, q, false, 0, d) == tail;
    assert NameAt(b, p) == Prepend(Dotted(front, []), tail);
    DottedAppend(front, back, []);
  }

  /** A chain of pointers qs[0] -> qs[1] -> ... each stored inside the buffer. */
  predicate PointerChain(b: seq<byte>, qs: seq<int>)
    decreases |qs|
  {
    |qs| >= 1 &&
    (|qs| > 1 ==>
       0 <= qs[0] && qs[0] + 2 <= |b| && 0 <= qs[1] < 0x4000 &&
       b[qs[0]..qs[0] + 2] == EncodePointer(qs[1]) &&
       PointerChain(b, qs[1..]))
  }

  /** Following a chain of pointers uses one jump per pointer; only the first
      pointer of the decode moves the real cursor. */
  lemma {:induction false} WalkChain(b: seq<byte>, cur: int, qs: seq<int>, jumped: bool, jumps: nat, delim: seq<byte>)
    requires |b| == BufferSize && PointerChain(b, qs)
    requires cur < BufferSize && jumps + |qs| - 1 <= MaxJumps + 1
    requires |qs| > 1 && !jumped ==> qs[0] + 2 < BufferSize
    ensures NameWalk(b, cur, qs[0], jumped, jumps, delim)
         == NameWalk(b, if |qs| > 1 && !jumped then qs[0] + 2 else cur, qs[|qs| - 1],
                     jumped || |qs| > 1, jumps + |qs| - 1, delim)
    decreases |qs|
  {
    if |qs| > 1 {
      WalkPointer(b, cur, qs[0], jumped, jumps, delim, qs[1]);
      var cur' := if jumped then cur else qs[0] + 2;
      WalkChain(b, cur', qs[1..], true, jumps + 1, delim);
    }
  }

  /** The jump limit: a chain of six pointers fails at the loop check that
      follows the sixth jump, with nothing appended and the real cursor just
      past the first pointer. */
  lemma SixthJumpFails(b: seq<byte>, qs: seq<int>)
    requires |b| == BufferSize && PointerChain(b, qs) && |qs| == MaxJumps + 2
    requires qs[0] + 2 < BufferSize
    ensures NameAt(b, qs[0]) == Walk([], qs[0] + 2, Fail(JumpLimitExceeded))
  {
    assert 0 <= qs[0];
    WalkChain(b, qs[0], qs, false, 0, []);
  }

  /** A chain of five pointers ending at an uncompressed name still decodes
      that name, with the real cursor just past the first pointer. */
  lemma FiveJumpsSucceed(b: seq<byte>, qs: seq<int>, ls: seq<seq<byte>>)
    requires |b| == BufferSize && PointerChain(b, qs) && |qs| == MaxJumps + 1
    requires qs[0] + 2 < BufferSize
    requires ValidLabels(ls) && 0 <= qs[MaxJumps]
    requires qs[MaxJumps] + |EncodeName(ls)| <= BufferSize
    requires b[qs[MaxJumps]..qs[MaxJumps] + |EncodeName(ls)|] == EncodeName(ls)
    ensures NameAt(b, qs[0]) == Walk(JoinLabels(ls), qs[0] + 2, Pass)
  {
    assert 0 <= qs[0];
    WalkChain(b, qs[0], qs, false, 0, []);
    WalkName(b, qs[0] + 2, qs[MaxJumps], true, MaxJumps, [], ls);
  }

  /** A pointer to itself, the simplest cycle, ends with the jump-limit error. */
  lemma SelfPointerFails(b: seq<byte>, q: int)
    requires |b| == BufferSize && 0 <= q && q + 2 < BufferSize
    requires b[q..q + 2] == EncodePointer(q)
    ensures NameAt(b, q) == Walk([], q + 2, Fail(JumpLimitExceeded))
  {
    var qs := [q, q, q, q, q, q, q];
    assert PointerChain(b, qs[6..]);
    assert PointerChain(b, qs[5..]);
    assert PointerChain(b, qs[4..]);
    assert PointerChain(b, qs[3..]);
    assert PointerChain(b, qs[2..]);
    assert PointerChain(b, qs[1..]);
    SixthJumpFails(b, qs);
  }

  /** Whenever a decode succeeds, the real cursor ends strictly after where it
      started and no further than the end of the buffer; once a pointer has
      been followed it no longer moves. */
  lemma {:induction false} WalkCursor(b: seq<byte>, cur: int, pos: int, jumped: bool, jumps: nat, delim: seq<byte>)
    requires |b| == BufferSize && jumps <= MaxJumps + 1
    ensures var w := NameWalk(b, cur, pos, jumped, jumps, delim);
            w.outcome.Pass? ==> if jumped then w.cursor == cur else pos < w.cursor <= BufferSize
    decreases MaxJumps + 1 - jumps, BufferSize - pos
  {
    if jumps <= MaxJumps && Peek(b, cur, pos).Ok? {
      var len := b[pos];
      if IsPointer(len) {
        var cur' := if jumped then cur else pos + 2;
        if Peek(b, cur', pos + 1).Ok? {
          WalkCursor(b, cur', PointerTarget(len, b[pos + 1]), true, jumps + 1, delim);
        }
      } else if len != 0 && PeekRange(b, pos + 1, len).Ok? {
        WalkCursor(b, cur, pos + 1 + len, jumped, jumps, [Dot]);
      }
    }
  }

  /** A successful decode from p moves the cursor forward and keeps it inside
      the buffer, so the next field is read after the name. */
  lemma NameAtAdvances(b: seq<byte>, p: int)
    requires |b| == BufferSize
    ensures NameAt(b, p).outcome.Pass? ==> p < NameAt(b, p).cursor <= BufferSize
  {
    WalkCursor(b, p, p, false, 0, []);
  }

  /** A single zero octet is the empty name. */
  lemma ZeroOctetIsEmptyName(b: seq<byte>, p: int)
    requires |b| == BufferSize && 0 <= p < BufferSize && b[p] == 0
    ensures NameAt(b, p) == Walk([], p + 1, Pass)
  {
  }

  /** The range check is strict: a label whose last octet is the buffer's last
      octet is refused, after nothing has been appended. */
  lemma LabelEndingAtBufferEndRefused(b: seq<byte>, p: int)
    requires |b| == BufferSize && 0 <= p < BufferSize
    requires b[p] != 0 && !IsPointer(b[p]) && p + 1 + b[p] == BufferSize
    ensures NameAt(b, p) == Walk([], p, Fail(EndOfBuffer))
  {
  }

  /** A first pointer in the last two octets moves the real cursor to 512
      before its second octet is read, so the decode fails with the cursor
      moved. */
  lemma PointerAtBufferEnd(b: seq<byte>)
    requires |b| == BufferSize && IsPointer(b[BufferSize - 2])
    ensures NameAt(b, BufferSize - 2) == Walk([], BufferSize, Fail(EndOfBuffer))
  {
  }

  /** A pointer beyond the buffer (offsets reach 0x3FFF) is not bounds-checked:
      reading its target is an index panic. */
  lemma PointerBeyondBuffer(b: seq<byte>, q: int)
    requires |b| == BufferSize && 0 <= q && q + 2 < BufferSize && IsPointer(b[q])
    requires PointerTarget(b[q], b[q + 1]) >= BufferSize
    ensures NameAt(b, q) == Walk([], q + 2, Fail(IndexOutOfRange))
  {
    var t := PointerTarget(b[q], b[q + 1]);
    assert NameWalk(b, q + 2, t, true, 1, []) == Walk([], q + 2, Fail(IndexOutOfRange));
  }

  /** After a first jump the real cursor no longer moves, so a second pointer
      in the buffer's last octet has its second octet read at index 512: an
      index panic rather than the end-of-buffer error. */
  lemma PointerInLastOctet(b: seq<byte>, q: int)
    requires |b| == BufferSize && 0 <= q && q + 2 < BufferSize
    requires b[q..q + 2] == EncodePointer(BufferSize - 1) && IsPointer(b[BufferSize - 1])
    ensures NameAt(b, q) == Walk([], q + 2, Fail(IndexOutOfRange))
  {
    WalkPointer(b, q, q, false, 0, [], BufferSize - 1);
    assert Peek(b, q + 2, BufferSize - 1) == Ok(b[BufferSize - 1]);
    assert Peek(b, q + 2, BufferSize) == Err(IndexOutOfRange);
  }
}
