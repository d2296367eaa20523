/** The question and resource record readers: a name followed by fixed-width
    fields, and for records a type-dependent payload. */
module Records {
  import opened Wire
  import opened Names
  import opened Packet

  /** The record types the reader knows (Go's QTYPE_ constants). */
  const A: QueryType := 1
  const NS: QueryType := 2
  const CNAME: QueryType := 5
  const MX: QueryType := 15
  const AAAA: QueryType := 28

  // ---------------------------------------------------------------------
  // Questions

  /** The values of a question's fields. */
  datatype QuestionFields = QuestionFields(name: seq<byte>, qtype: uint16, qclass: uint16)

  /** What a read leaves behind: the values, the cursor and the verdict. */
  datatype Parsed<T> = Parsed(value: T, cursor: int, outcome: Outcome)

  /** A question read at cursor p over the fields q: the decoded name is
      appended to the name field (in part when the name fails), then the type
      and the class are read as two words, each field assigned as its word is
      read. */
  function QuestionAt(b: seq<byte>, p: int, q: QuestionFields): Parsed<QuestionFields>
    requires |b| == BufferSize
  {
    var w := NameAt(b, p);
    var named := q.(name := q.name + w.text);
    if w.outcome.Fail? then Parsed(named, w.cursor, w.outcome)
    else
      var c := w.cursor;
      Parsed(named.(qtype := AssignedWord(b, c, 0, q.qtype), qclass := AssignedWord(b, c, 2, q.qclass)),
             Advance(c, 4),
             if Fits(c, 4) then Pass else Fail(ShortRead(c)))
  }

  class DnsQuestion {
    var Name: seq<byte>
    var Qtype: uint16
    var Qclass: uint16

    function Fields(): QuestionFields
      reads this
    {
      QuestionFields(Name, Qtype, Qclass)
    }

    /** A question with an empty name and zero type and class. */
    constructor ()
      ensures Fields() == QuestionFields([], 0, 0)
    {
      Name, Qtype, Qclass := [], 0, 0;
    }

    /** Reads a question at the cursor: the name, appended to Name, then the
        type and the class. */
    method Read(buffer: BytePacketBuffer) returns (err: Outcome)
      requires buffer.Valid()
      modifies this, buffer`pos
      ensures Fields() == QuestionAt(old(buffer.buf[..]), old(buffer.pos), old(Fields())).value
      ensures buffer.pos == QuestionAt(old(buffer.buf[..]), old(buffer.pos), old(Fields())).cursor
      ensures err == QuestionAt(old(buffer.buf[..]), old(buffer.pos), old(Fields())).outcome
    {
      ghost var b := buffer.buf[..];
      var name, nameErr := buffer.ReadQname(Name);
      Name := name;
      if nameErr.Fail? {
        return nameErr;
      }
      ghost var c := buffer.pos;
      var qtype := buffer.ReadU16();
      assert buffer.buf[..] == b;
      Qtype := if qtype.Ok? then qtype.value else 0;
      if qtype.Err? {
        return Fail(qtype.error);
      }
      var qclass := buffer.ReadU16();
      assert buffer.buf[..] == b;
      Qclass := if qclass.Ok? then qclass.value else 0;
      if qclass.Err? {
        AdvanceCompose(c, 2, 2);
        return Fail(qclass.error);
      }
      AdvanceCompose(c, 2, 2);
      err := Pass;
    }
  }

  // ---------------------------------------------------------------------
  // Resource records

  /** A decoded resource record. Addr holds the raw 4 or 16 address octets of
      an A or AAAA record, Host the name of a CNAME or MX record, Priority the
      preference of an MX record; each is empty or zero for other types. */
  datatype DnsRecord = DnsRecord(
    name: seq<byte>,
    qtype: QueryType,
    rclass: uint16,
    ttl: uint32,
    dataLen: uint16,
    addr: seq<byte>,
    host: seq<byte>,
    priority: uint16)

  /** What a record read yields and where it leaves the cursor. */
  datatype Decoded = Decoded(result: Result<DnsRecord>, cursor: int)

  /** One more single-octet read after the run d: nothing changes once the
      run has failed, the read fails at 512 or beyond or panics below 0,
      and otherwise the octet under the cursor is added and the cursor moves. */
  function NextOctet(b: seq<byte>, d: Parsed<seq<byte>>): Parsed<seq<byte>>
    requires |b| == BufferSize
  {
    if d.outcome.Fail? then d
    else if d.cursor >= BufferSize then d.(outcome := Fail(EndOfBuffer))
    else if d.cursor < 0 then d.(outcome := Fail(IndexOutOfRange))
    else Parsed(d.value + [b[d.cursor]], d.cursor + 1, Pass)
  }

  /** n single-octet reads from q, one after the other, as the address loop
      performs them: the octets read so far, the cursor they leave and the
      verdict. The first failing read ends the run without moving the cursor. */
  function OctetsAt(b: seq<byte>, q: int, n: nat): (d: Parsed<seq<byte>>)
    requires |b| == BufferSize
    ensures d.cursor == Advance(q, n)
    ensures d.outcome == Pass <==> n == 0 || Fits(q, n)
    ensures d.outcome.Fail? ==> d.outcome.error == ShortRead(q)
    ensures d.outcome == Pass ==> d.value == if n == 0 then [] else b[q..q + n]
  {
    if n == 0 then Parsed([], q, Pass)
    else
      assert n > 1 && Fits(q, n) ==> b[q..q + n] == b[q..q + n - 1] + [b[q + n - 1]];
      NextOctet(b, OctetsAt(b, q, n - 1))
  }

  /** The run d1 followed by the run d2 that starts where d1 left the cursor. */
  function Then(d1: Parsed<seq<byte>>, d2: Parsed<seq<byte>>): Parsed<seq<byte>> {
    Parsed(d1.value + d2.value, d2.cursor, d2.outcome)
  }

  /** A further read after two joined runs extends the second run. */
  lemma NextOctetThen(b: seq<byte>, d1: Parsed<seq<byte>>, d2: Parsed<seq<byte>>)
    requires |b| == BufferSize
    ensures NextOctet(b, Then(d1, d2)) == Then(d1, NextOctet(b, d2))
  {
    if d2.outcome == Pass && 0 <= d2.cursor < BufferSize {
      assert d1.value + d2.value + [b[d2.cursor]] == d1.value + (d2.value + [b[d2.cursor]]);
    }
  }

  /** A run of a + c reads is a run of a reads followed by a run of c reads
      from where the first left the cursor, once the first run succeeded. */
  lemma {:induction false} OctetsAtSplit(b: seq<byte>, q: int, a: nat, c: nat)
    requires |b| == BufferSize && OctetsAt(b, q, a).outcome == Pass
    ensures var d1 := OctetsAt(b, q, a);
            OctetsAt(b, q, a + c) == Then(d1, OctetsAt(b, d1.cursor, c))
    decreases c
  {
    var d1 := OctetsAt(b, q, a);
    if c == 0 {
      assert d1.value + [] == d1.value;
    } else {
      OctetsAtSplit(b, q, a, c - 1);
      NextOctetThen(b, d1, OctetsAt(b, d1.cursor, c - 1));
    }
  }

  /** The record named name whose type, class, TTL and data length words
      are stored at c, with no payload yet. */
  function FixedAt(b: seq<byte>, c: int, name: seq<byte>): DnsRecord
    requires |b| == BufferSize && Fits(c, 10)
  {
    DnsRecord(name, WordAt(b, c), WordAt(b, c + 2), DoubleWordAt(b, c + 4), WordAt(b, c + 8), [], [], 0)
  }

  /** The payload read at q into rec, by its type: four address octets (A),
      sixteen (AAAA), a name (CNAME), or a priority word and a name (MX); any
      other type reads nothing. */
  function PayloadAt(b: seq<byte>, q: int, rec: DnsRecord): Decoded
    requires |b| == BufferSize
  {
    if rec.qtype == A || rec.qtype == AAAA then
      var octets := OctetsAt(b, q, if rec.qtype == A then 4 else 16);
      if octets.outcome.Fail? then Decoded(Err(octets.outcome.error), octets.cursor)
      else Decoded(Ok(rec.(addr := octets.value)), octets.cursor)
    else if rec.qtype == CNAME then
      var h := NameAt(b, q);
      if h.outcome.Fail? then Decoded(Err(h.outcome.error), h.cursor)
      else Decoded(Ok(rec.(host := rec.host + h.text)), h.cursor)
    else if rec.qtype == MX then
      if !Fits(q, 2) then Decoded(Err(ShortRead(q)), Advance(q, 2))
      else
        var h := NameAt(b, q + 2);
        if h.outcome.Fail? then Decoded(Err(h.outcome.error), h.cursor)
        else Decoded(Ok(rec.(priority := WordAt(b, q), host := rec.host + h.text)), h.cursor)
    else Decoded(Ok(rec), q)
  }

  /** The record at cursor p: its name, the type, class, TTL and data length
      words, then the payload its type calls for. The data length is read but
      never used to bound or skip the payload. */
  function RecordAt(b: seq<byte>, p: int): Decoded
    requires |b| == BufferSize
  {
    var w := NameAt(b, p);
    if w.outcome.Fail? then Decoded(Err(w.outcome.error), w.cursor)
    else
      var c := w.cursor;
      if !Fits(c, 10) then Decoded(Err(ShortRead(c)), Advance(c, 10))
      else PayloadAt(b, c + 10, FixedAt(b, c, w.text))
  }

  /** Fills an n-octet address from n single-octet reads at the cursor; the
      first failing read ends it with that read's error. */
  method ReadAddress(buffer: BytePacketBuffer, n: nat) returns (r: Result<seq<byte>>)
    requires buffer.Valid()
    modifies buffer`pos
    ensures buffer.pos == OctetsAt(old(buffer.buf[..]), old(buffer.pos), n).cursor
    ensures r.Ok? <==> OctetsAt(old(buffer.buf[..]), old(buffer.pos), n).outcome == Pass
    ensures r.Ok? ==> r.value == OctetsAt(old(buffer.buf[..]), old(buffer.pos), n).value
    ensures r.Err? ==> OctetsAt(old(buffer.buf[..]), old(buffer.pos), n).outcome == Fail(r.error)
  {
    ghost var b, q := buffer.buf[..], buffer.pos;
    var addr := new byte[n];
    for i := 0 to n
      invariant buffer.buf[..] == b
      invariant OctetsAt(b, q, i) == Parsed(addr[..i], buffer.pos, Pass)
    {
      var x := buffer.Read();
      if x.Err? {
        return Err(x.error);
      }
      addr[i] := x.value;
      assert addr[..i + 1] == addr[..i] + [x.value];
    }
    return Ok(addr[..]);
  }

  /** Reads the type, class, TTL and data length words of a record named
      name; the first failing read ends it with that read's error. */
  method ReadFixed(buffer: BytePacketBuffer, name: seq<byte>) returns (r: Result<DnsRecord>)
    requires buffer.Valid()
    modifies buffer`pos
    ensures buffer.pos == Advance(old(buffer.pos), 10)
    ensures Fits(old(buffer.pos), 10) ==> r == Ok(FixedAt(old(buffer.buf[..]), old(buffer.pos), name))
    ensures !Fits(old(buffer.pos), 10) ==> r == Err(ShortRead(old(buffer.pos)))
  {
    ghost var b, c := buffer.buf[..], buffer.pos;
    var qtype := buffer.ReadU16Query();
    assert buffer.buf[..] == b;
    if qtype.Err? {
      AdvanceCompose(c, 2, 8);
      return Err(qtype.error);
    }
    var rclass := buffer.ReadU16();
    assert buffer.buf[..] == b;
    AdvanceCompose(c, 2, 2);
    if rclass.Err? {
      AdvanceCompose(c, 4, 6);
      return Err(rclass.error);
    }
    var ttl := buffer.ReadU32();
    assert buffer.buf[..] == b;
    AdvanceCompose(c, 4, 4);
    if ttl.Err? {
      AdvanceCompose(c, 8, 2);
      return Err(ttl.error);
    }
    var dataLen := buffer.ReadU16();
    assert buffer.buf[..] == b;
    AdvanceCompose(c, 8, 2);
    if dataLen.Err? {
      return Err(dataLen.error);
    }
    r := Ok(DnsRecord(name, qtype.value, rclass.value, ttl.value, dataLen.value, [], [], 0));
  }

  /** Reads the payload of rec at the cursor, as its type calls for. */
  method ReadPayload(buffer: BytePacketBuffer, rec: DnsRecord) returns (r: Result<DnsRecord>)
    requires buffer.Valid()
    modifies buffer`pos
    ensures r == PayloadAt(old(buffer.buf[..]), old(buffer.pos), rec).result
    ensures buffer.pos == PayloadAt(old(buffer.buf[..]), old(buffer.pos), rec).cursor
  {
    ghost var b := buffer.buf[..];
    if rec.qtype == A || rec.qtype == AAAA {
      var addr := ReadAddress(buffer, if rec.qtype == A then 4 else 16);
      if addr.Err? {
        return Err(addr.error);
      }
      r := Ok(rec.(addr := addr.value));
    } else if rec.qtype == CNAME {
      var host, hostErr := buffer.ReadQname(rec.host);
      if hostErr.Fail? {
        return Err(hostErr.error);
      }
      r := Ok(rec.(host := host));
    } else if rec.qtype == MX {
      var priority := buffer.ReadU16();
      assert buffer.buf[..] == b;
      if priority.Err? {
        return Err(priority.error);
      }
      var host, hostErr := buffer.ReadQname(rec.host);
      if hostErr.Fail? {
        return Err(hostErr.error);
      }
      r := Ok(rec.(priority := priority.value, host := host));
    } else {
      r := Ok(rec);
    }
  }

  /** Reads the resource record at the cursor. */
  method DnsRecordRead(buffer: BytePacketBuffer) returns (r: Result<DnsRecord>)
    requires buffer.Valid()
    modifies buffer`pos
    ensures r == RecordAt(old(buffer.buf[..]), old(buffer.pos)).result
    ensures buffer.pos == RecordAt(old(buffer.buf[..]), old(buffer.pos)).cursor
  {
    ghost var b := buffer.buf[..];
    var name, nameErr := buffer.ReadQname([]);
    if nameErr.Fail? {
      return Err(nameErr.error);
    }
    assert name == NameAt(b, old(buffer.pos)).text;
    var rec := ReadFixed(buffer, name);
    if rec.Err? {
      return rec;
    }
    r := ReadPayload(buffer, rec.value);
  }

  // ---------------------------------------------------------------------
  // Round trips

  /** A question stored as an uncompressed name, a type word and a class word
      reads back as that name, type and class, and the cursor ends just past
      it. */
  lemma QuestionRoundTrip(b: seq<byte>, p: int, q: QuestionFields, ls: seq<seq<byte>>, t: uint16, cl: uint16)
    requires |b| == BufferSize && ValidLabels(ls)
    requires 0 <= p && p + |EncodeName(ls)| + 4 <= BufferSize
    requires b[p..p + |EncodeName(ls)| + 4] == EncodeName(ls) + EncodeWord(t) + EncodeWord(cl)
    ensures QuestionAt(b, p, q)
         == Parsed(QuestionFields(q.name + JoinLabels(ls), t, cl), p + |EncodeName(ls)| + 4, Pass)
  {
    var n := |EncodeName(ls)|;
    StoredTriple(b, p, EncodeName(ls), EncodeWord(t), EncodeWord(cl));
    DecodeEncodedName(b, p, ls);
    WordAtEncoded(b, p + n, t);
    WordAtEncoded(b, p + n + 2, cl);
  }

  /** Five zero octets, as in the zero padding after the last octet of a
      message, read as a question with an empty name, type 0 and class 0. */
  lemma ZeroPaddingReadsAsQuestion(b: seq<byte>, p: int, q: QuestionFields)
    requires |b| == BufferSize && 0 <= p && p + 5 <= BufferSize
    requires forall i :: p <= i < p + 5 ==> b[i] == 0
    ensures QuestionAt(b, p, q) == Parsed(QuestionFields(q.name, 0, 0), p + 5, Pass)
  {
    assert b[p..p + 5] == EncodeName([]) + EncodeWord(0) + EncodeWord(0);
    QuestionRoundTrip(b, p, q, [], 0, 0);
    assert q.name + JoinLabels([]) == q.name;
  }

  /** The type, class, TTL and data length words of r. */
  function EncodeFixed(r: DnsRecord): seq<byte> {
    EncodeWord(r.qtype) + EncodeWord(r.rclass) + EncodeDoubleWord(r.ttl) + EncodeWord(r.dataLen)
  }

  /** The fixed words of a record read back as themselves. */
  lemma FixedRoundTrip(b: seq<byte>, c: int, r: DnsRecord)
    requires |b| == BufferSize && Fits(c, 10) && b[c..c + 10] == EncodeFixed(r)
    ensures FixedAt(b, c, r.name) == r.(addr := [], host := [], priority := 0)
  {
    var e := EncodeFixed(r);
    StoredSlice(b, c, e, 0, 2);
    StoredSlice(b, c, e, 2, 4);
    StoredSlice(b, c, e, 4, 8);
    StoredSlice(b, c, e, 8, 10);
    assert e[0..2] == EncodeWord(r.qtype) && e[2..4] == EncodeWord(r.rclass);
    assert e[4..8] == EncodeDoubleWord(r.ttl) && e[8..10] == EncodeWord(r.dataLen);
    WordAtEncoded(b, c, r.qtype);
    WordAtEncoded(b, c + 2, r.rclass);
    DoubleWordAtEncoded(b, c + 4, r.ttl);
    WordAtEncoded(b, c + 8, r.dataLen);
  }

  /** The record r has the payload its type calls for, with host name labels
      hs: four address octets for A, sixteen for AAAA, the host for CNAME, the
      priority and host for MX, and nothing for any other type. */
  predicate RecordShape(r: DnsRecord, hs: seq<seq<byte>>) {
    ValidLabels(hs) &&
    if r.qtype == A then |r.addr| == 4 && r.host == [] && r.priority == 0
    else if r.qtype == AAAA then |r.addr| == 16 && r.host == [] && r.priority == 0
    else if r.qtype == CNAME then r.addr == [] && r.host == JoinLabels(hs) && r.priority == 0
    else if r.qtype == MX then r.addr == [] && r.host == JoinLabels(hs)
    else r.addr == [] && r.host == [] && r.priority == 0
  }

  /** The payload octets the reader consumes for r. */
  function EncodePayload(r: DnsRecord, hs: seq<seq<byte>>): seq<byte>
    requires RecordShape(r, hs)
  {
    if r.qtype == A || r.qtype == AAAA then r.addr
    else if r.qtype == CNAME then EncodeName(hs)
    else if r.qtype == MX then EncodeWord(r.priority) + EncodeName(hs)
    else []
  }

  /** A record whose name has labels ls and whose host has labels hs, as the
      octets the reader consumes for it. */
  function EncodeRecord(ls: seq<seq<byte>>, r: DnsRecord, hs: seq<seq<byte>>): seq<byte>
    requires ValidLabels(ls) && RecordShape(r, hs)
  {
    EncodeName(ls) + EncodeFixed(r) + EncodePayload(r, hs)
  }

  /** An MX payload stored at q reads back as its priority and host. */
  lemma MxPayloadRoundTrip(b: seq<byte>, q: int, r: DnsRecord, hs: seq<seq<byte>>)
    requires |b| == BufferSize && r.qtype == MX && RecordShape(r, hs)
    requires 0 <= q && q + 2 + |EncodeName(hs)| <= BufferSize
    requires b[q..q + 2 + |EncodeName(hs)|] == EncodeWord(r.priority) + EncodeName(hs)
    ensures PayloadAt(b, q, r.(addr := [], host := [], priority := 0))
         == Decoded(Ok(r), q + 2 + |EncodeName(hs)|)
  {
    StoredPair(b, q, EncodeWord(r.priority), EncodeName(hs));
    WordAtEncoded(b, q, r.priority);
    DecodeEncodedName(b, q + 2, hs);
    assert [] + JoinLabels(hs) == r.host;
  }

  /** A payload stored at q reads back into the record. */
  lemma PayloadRoundTrip(b: seq<byte>, q: int, r: DnsRecord, hs: seq<seq<byte>>)
    requires |b| == BufferSize && RecordShape(r, hs)
    requires 0 <= q && q + |EncodePayload(r, hs)| <= BufferSize
    requires b[q..q + |EncodePayload(r, hs)|] == EncodePayload(r, hs)
    ensures PayloadAt(b, q, r.(addr := [], host := [], priority := 0))
         == Decoded(Ok(r), q + |EncodePayload(r, hs)|)
  {
    if r.qtype == CNAME {
      DecodeEncodedName(b, q, hs);
      assert [] + JoinLabels(hs) == JoinLabels(hs);
    } else if r.qtype == MX {
      MxPayloadRoundTrip(b, q, r, hs);
    }
  }

  /** A record stored as an uncompressed name, its fixed words and its
      payload reads back as itself, and the cursor ends just past it. The
      data length word can hold any value: the reader keeps it but never
      consults it. */
  lemma RecordRoundTrip(b: seq<byte>, p: int, ls: seq<seq<byte>>, r: DnsRecord, hs: seq<seq<byte>>)
    requires |b| == BufferSize && ValidLabels(ls) && RecordShape(r, hs) && r.name == JoinLabels(ls)
    requires 0 <= p && p + |EncodeRecord(ls, r, hs)| <= BufferSize
    requires b[p..p + |EncodeRecord(ls, r, hs)|] == EncodeRecord(ls, r, hs)
    ensures RecordAt(b, p) == Decoded(Ok(r), p + |EncodeRecord(ls, r, hs)|)
  {
    var n := |EncodeName(ls)|;
    StoredTriple(b, p, EncodeName(ls), EncodeFixed(r), EncodePayload(r, hs));
    DecodeEncodedName(b, p, ls);
    assert NameAt(b, p) == Walk(r.name, p + n, Pass);
    FixedRoundTrip(b, p + n, r);
    PayloadRoundTrip(b, p + n + 10, r, hs);
    assert RecordAt(b, p) == PayloadAt(b, p + n + 10, FixedAt(b, p + n, r.name));
  }
}
