/** The 12-octet message header: the response codes, the decoding of the
    flags word, and the header reader that assigns the fields one read at a
    time. */
module Header {
  import opened Wire
  import opened Packet

  /** A response code, Go's ResultCode (a uint8). */
  type ResultCode = byte

  const NOERROR: ResultCode := 0
  const FORMERR: ResultCode := 1
  const SERVFAIL: ResultCode := 2
  const NXDOMAIN: ResultCode := 3
  const NOTIMP: ResultCode := 4
  const REFUSED: ResultCode := 5

  /** The response code a number denotes: 1 to 5 are kept, every other
      value, from 6 up to 255, collapses to NOERROR. */
  function ResultCodeFromNum(num: byte): (rc: ResultCode)
    ensures rc <= REFUSED
    ensures 1 <= num <= 5 ==> rc == num
    ensures rc != num ==> rc == NOERROR
  {
    match num
    case 1 => FORMERR
    case 2 => SERVFAIL
    case 3 => NXDOMAIN
    case 4 => NOTIMP
    case 5 => REFUSED
    case _ => NOERROR
  }

  /** The name of a response code; codes above REFUSED are "UNKNOWN". */
  function ResultCodeName(rc: ResultCode): (s: string)
    ensures s == "UNKNOWN" <==> rc > REFUSED
  {
    match rc
    case 0 => "NOERROR"
    case 1 => "FORMERR"
    case 2 => "SERVFAIL"
    case 3 => "NXDOMAIN"
    case 4 => "NOTIMP"
    case 5 => "REFUSED"
    case _ => "UNKNOWN"
  }

  /** Decoding a number twice changes nothing more. */
  lemma ResultCodeFromNumIdempotent(num: byte)
    ensures ResultCodeFromNum(ResultCodeFromNum(num)) == ResultCodeFromNum(num)
  {
  }

  /** The six known codes have six different names, so the name determines
      the code, and a decoded code always has a known name. */
  lemma ResultCodeNamesDistinct(a: ResultCode, c: ResultCode, num: byte)
    requires a <= REFUSED && c <= REFUSED && a != c
    ensures ResultCodeName(a) != ResultCodeName(c)
    ensures ResultCodeName(ResultCodeFromNum(num)) != "UNKNOWN"
  {
  }

  // ---------------------------------------------------------------------
  // The flags word

  /** The ten fields the reader takes from the second word of the header. */
  datatype Flags = Flags(
    recursionDesired: bool,
    truncatedMessage: bool,
    authoritativeAnswer: bool,
    opcode: byte,
    response: bool,
    resCode: ResultCode,
    checkingDisabled: bool,
    authedData: bool,
    z: bool,
    recursionAvailable: bool)

  /** The flags as the reader takes them from the word w: RD is bit 8, TC bit
      9, AA bit 10, the opcode bits 11 to 14, QR bit 15, RA bit 7, the
      response code the low four bits, and CD, AD and Z bits 12, 13 and 14. */
  function DecodeFlags(w: uint16): Flags {
    Flags(
      Bit(w, 8), Bit(w, 9), Bit(w, 10), (w / Pow2(11)) % 16, Bit(w, 15),
      ResultCodeFromNum(w % 16), Bit(w, 12), Bit(w, 13), Bit(w, 14), Bit(w, 7))
  }

  /** The word section 4.1.1 of RFC 1035 lays out for the fields: QR, the
      opcode, AA, TC, RD and RA at bits 15, 11-14, 10, 9, 8 and 7, the three
      reserved bits 4-6 clear and the response code in bits 0-3. CD, AD and Z
      have no bits of their own in this layout. */
  function EncodeFlags(f: Flags): uint16
    requires f.opcode < 16 && f.resCode < 16
  {
    (BitOf(f.response) * 16 + f.opcode) * 0x800
    + BitOf(f.authoritativeAnswer) * 0x400
    + BitOf(f.truncatedMessage) * 0x200
    + BitOf(f.recursionDesired) * 0x100
    + BitOf(f.recursionAvailable) * 0x80
    + f.resCode
  }

  lemma Pow2Table()
    ensures Pow2(4) == 0x10 && Pow2(7) == 0x80 && Pow2(8) == 0x100 && Pow2(9) == 0x200
    ensures Pow2(10) == 0x400 && Pow2(11) == 0x800 && Pow2(12) == 0x1000
    ensures Pow2(13) == 0x2000 && Pow2(14) == 0x4000 && Pow2(15) == 0x8000
    ensures Pow2(1) == 2 && Pow2(2) == 4 && Pow2(3) == 8
  {
    assert Pow2(1) == 2;
    assert Pow2(2) == 4;
    assert Pow2(3) == 8;
    assert Pow2(4) == 0x10;
    assert Pow2(5) == 0x20;
    assert Pow2(6) == 0x40;
    assert Pow2(7) == 0x80;
    assert Pow2(8) == 0x100;
    assert Pow2(9) == 0x200;
    assert Pow2(10) == 0x400;
    assert Pow2(11) == 0x800;
    assert Pow2(12) == 0x1000;
    assert Pow2(13) == 0x2000;
    assert Pow2(14) == 0x4000;
  }

  /** The flags written as the reader computes them, with shifts and masks. */
  lemma DecodeFlagsShifts(w: uint16)
    ensures DecodeFlags(w)
         == Flags((w / 0x100) % 2 > 0, (w / 0x200) % 2 > 0, (w / 0x400) % 2 > 0,
                  (w / 0x800) % 0x10, (w / 0x8000) % 2 > 0, ResultCodeFromNum(w % 0x10),
                  (w / 0x1000) % 2 > 0, (w / 0x2000) % 2 > 0, (w / 0x4000) % 2 > 0,
                  (w / 0x80) % 2 > 0)
  {
    Pow2Table();
  }

  /** Bits 12, 13 and 14 of a word are bits 1, 2 and 3 of the four-bit
      field that starts at bit 11. */
  lemma OpcodeBit1(w: nat)
    requires w < 0x1_0000
    ensures (w / 0x1000) % 2 == (((w / 0x800) % 0x10) / 2) % 2
  {
  }

  lemma OpcodeBit2(w: nat)
    requires w < 0x1_0000
    ensures (w / 0x2000) % 2 == (((w / 0x800) % 0x10) / 4) % 2
  {
  }

  lemma OpcodeBit3(w: nat)
    requires w < 0x1_0000
    ensures (w / 0x4000) % 2 == (((w / 0x800) % 0x10) / 8) % 2
  {
  }

  /** CD, AD and Z are not independent of the opcode: they are its bits 1,
      2 and 3, so a standard query (opcode 0) always reads them as clear. */
  lemma FlagsShareOpcodeBits(w: uint16)
    ensures DecodeFlags(w).checkingDisabled == Bit(DecodeFlags(w).opcode, 1)
    ensures DecodeFlags(w).authedData == Bit(DecodeFlags(w).opcode, 2)
    ensures DecodeFlags(w).z == Bit(DecodeFlags(w).opcode, 3)
  {
    assert Pow2(1) == 2 && Pow2(2) == 4 && Pow2(3) == 8;
    assert Pow2(11) == 0x800 && Pow2(12) == 0x1000 && Pow2(13) == 0x2000 && Pow2(14) == 0x4000;
    OpcodeBit1(w);
    OpcodeBit2(w);
    OpcodeBit3(w);
  }

  /** Flags the reader can produce: the opcode fits its four bits, the
      response code is a known one, and CD, AD and Z mirror the opcode. */
  predicate ConsistentFlags(f: Flags) {
    f.opcode < 16 && f.resCode <= REFUSED
    && f.checkingDisabled == Bit(f.opcode, 1)
    && f.authedData == Bit(f.opcode, 2)
    && f.z == Bit(f.opcode, 3)
  }

  /** In the encoded word RA and RD sit at bits 7 and 8. */
  lemma EncodedLowFlagBits(f: Flags)
    requires f.opcode < 16 && f.resCode < 16
    ensures Bit(EncodeFlags(f), 7) == f.recursionAvailable
    ensures Bit(EncodeFlags(f), 8) == f.recursionDesired
  {
    assert Pow2(7) == 0x80 && Pow2(8) == 0x100;
    var w := EncodeFlags(f);
    var qr, op: nat, aa, tc := BitOf(f.response), f.opcode, BitOf(f.authoritativeAnswer), BitOf(f.truncatedMessage);
    var rd, ra, rc: nat := BitOf(f.recursionDesired), BitOf(f.recursionAvailable), f.resCode;
    BitAt(w, 7, 0x80, (((qr * 16 + op) * 2 + aa) * 2 + tc) * 2 + rd, ra, rc);
    BitAt(w, 8, 0x100, ((qr * 16 + op) * 2 + aa) * 2 + tc, rd, ra * 0x80 + rc);
  }

  /** In the encoded word TC, AA and QR sit at bits 9, 10 and 15. */
  lemma EncodedHighFlagBits(f: Flags)
    requires f.opcode < 16 && f.resCode < 16
    ensures Bit(EncodeFlags(f), 9) == f.truncatedMessage
    ensures Bit(EncodeFlags(f), 10) == f.authoritativeAnswer
    ensures Bit(EncodeFlags(f), 15) == f.response
  {
    assert Pow2(9) == 0x200 && Pow2(10) == 0x400 && Pow2(15) == 0x8000;
    var w := EncodeFlags(f);
    var qr, op: nat, aa, tc := BitOf(f.response), f.opcode, BitOf(f.authoritativeAnswer), BitOf(f.truncatedMessage);
    var rd, ra, rc: nat := BitOf(f.recursionDesired), BitOf(f.recursionAvailable), f.resCode;
    BitAt(w, 9, 0x200, (qr * 16 + op) * 2 + aa, tc, (rd * 2 + ra) * 0x80 + rc);
    BitAt(w, 10, 0x400, qr * 16 + op, aa, ((tc * 2 + rd) * 2 + ra) * 0x80 + rc);
    BitAt(w, 15, 0x8000, 0, qr, op * 0x800 + ((aa * 2 + tc) * 2 + rd) * 0x100 + ra * 0x80 + rc);
  }

  /** In the encoded word the opcode and the response code sit in their
      four-bit fields. */
  lemma EncodedFlagFields(f: Flags)
    requires f.opcode < 16 && f.resCode < 16
    ensures (EncodeFlags(f) / Pow2(11)) % 16 == f.opcode && EncodeFlags(f) % 16 == f.resCode
  {
    Pow2Table();
    var w := EncodeFlags(f);
    var qr, op: nat, rc: nat := BitOf(f.response), f.opcode, f.resCode;
    var low := ((BitOf(f.authoritativeAnswer) * 2 + BitOf(f.truncatedMessage)) * 2
               + BitOf(f.recursionDesired)) * 0x100 + BitOf(f.recursionAvailable) * 0x80 + rc;
    DivMod(qr * 16 + op, 0x800, low);
    DivMod(qr, 16, op);
    DivMod((w - rc) / 16, 16, rc);
  }

  /** Encoding consistent flags and reading them back gives them back. */
  lemma DecodeEncodeFlags(f: Flags)
    requires ConsistentFlags(f)
    ensures DecodeFlags(EncodeFlags(f)) == f
  {
    EncodedLowFlagBits(f);
    EncodedHighFlagBits(f);
    EncodedFlagFields(f);
    FlagsShareOpcodeBits(EncodeFlags(f));
  }

  /** The flags of a usual answer, 0x8180: a response with recursion desired
      and available, opcode 0 and NOERROR. */
  lemma StandardResponseFlags()
    ensures DecodeFlags(0x8180)
         == Flags(true, false, false, 0, true, NOERROR, false, false, false, true)
  {
    Pow2Table();
  }

  /** Where the reader and RFC 1035 with its extensions part ways: bit 5
      (AD) and bit 4 (CD) of the header layout in section 2 of RFC 6895 are
      not read at all, while opcode 2 (STATUS) reads as checking disabled. */
  lemma FlagsDifferFromRfc()
    ensures !DecodeFlags(0x0020).authedData && !DecodeFlags(0x0010).checkingDisabled
    ensures DecodeFlags(0x1000).opcode == 2 && DecodeFlags(0x1000).checkingDisabled
  {
    Pow2Table();
  }

  // ---------------------------------------------------------------------
  // The header

  /** The values of a header's fields. */
  datatype HeaderFields = HeaderFields(
    id: uint16,
    flags: Flags,
    questions: uint16,
    answers: uint16,
    authoritativeEntries: uint16,
    resourceEntries: uint16)

  /** The fields after a header read from cursor p over fields h. The six
      words from p are the ID, the flags and the four counts. A field is
      assigned as its word is read: when a word runs past the end of the
      buffer, the fields before it are decoded, its own field is zero (the
      flags, read into a local first, are left alone) and the fields after
      it keep their values. */
  function HeaderAt(b: seq<byte>, p: int, h: HeaderFields): HeaderFields
    requires |b| == BufferSize
  {
    HeaderFields(
      AssignedWord(b, p, 0, h.id),
      if Fits(p, 4) then DecodeFlags(WordAt(b, p + 2)) else h.flags,
      AssignedWord(b, p, 4, h.questions),
      AssignedWord(b, p, 6, h.answers),
      AssignedWord(b, p, 8, h.authoritativeEntries),
      AssignedWord(b, p, 10, h.resourceEntries))
  }

  /** The twelve octets of a header whose flags the reader can produce. */
  function EncodeHeader(h: HeaderFields): seq<byte>
    requires ConsistentFlags(h.flags)
  {
    EncodeWord(h.id) + EncodeWord(EncodeFlags(h.flags)) + EncodeWord(h.questions)
    + EncodeWord(h.answers) + EncodeWord(h.authoritativeEntries) + EncodeWord(h.resourceEntries)
  }

  /** A header stored whole at p reads back as itself, whatever the fields
      held before. */
  lemma HeaderRoundTrip(b: seq<byte>, p: int, h: HeaderFields, prior: HeaderFields)
    requires |b| == BufferSize && ConsistentFlags(h.flags) && Fits(p, 12)
    requires b[p..p + 12] == EncodeHeader(h)
    ensures HeaderAt(b, p, prior) == h
  {
    var x := EncodeWord(h.id) + EncodeWord(EncodeFlags(h.flags)) + EncodeWord(h.questions);
    var y := EncodeWord(h.answers) + EncodeWord(h.authoritativeEntries) + EncodeWord(h.resourceEntries);
    assert EncodeHeader(h) == x + y;
    StoredPair(b, p, x, y);
    StoredTriple(b, p, EncodeWord(h.id), EncodeWord(EncodeFlags(h.flags)), EncodeWord(h.questions));
    StoredTriple(b, p + 6, EncodeWord(h.answers), EncodeWord(h.authoritativeEntries), EncodeWord(h.resourceEntries));
    WordAtEncoded(b, p, h.id);
    WordAtEncoded(b, p + 2, EncodeFlags(h.flags));
    WordAtEncoded(b, p + 4, h.questions);
    WordAtEncoded(b, p + 6, h.answers);
    WordAtEncoded(b, p + 8, h.authoritativeEntries);
    WordAtEncoded(b, p + 10, h.resourceEntries);
    DecodeEncodeFlags(h.flags);
  }

  /** The six reads of a header, from the buffer's cursor, with the values
      assigned so far collected in f, starting from the fields h. */
  method ReadHeaderFields(buffer: BytePacketBuffer, h: HeaderFields) returns (f: HeaderFields, err: Outcome)
    requires buffer.Valid()
    modifies buffer`pos
    ensures buffer.pos == Advance(old(buffer.pos), 12)
    ensures err == if Fits(old(buffer.pos), 12) then Pass else Fail(ShortRead(old(buffer.pos)))
    ensures f == HeaderAt(old(buffer.buf[..]), old(buffer.pos), h)
  {
    ghost var b, p := buffer.buf[..], buffer.pos;
    f := h;
    var r := buffer.ReadU16();
    assert buffer.buf[..] == b;
    f := f.(id := if r.Ok? then r.value else 0);
    if r.Err? {
      return f, Fail(r.error);
    }
    var flagsRead := buffer.ReadU16();
    assert buffer.buf[..] == b;
    if flagsRead.Err? {
      AdvanceCompose(p, 2, 2);
      return f, Fail(flagsRead.error);
    }
    f := f.(flags := DecodeFlags(flagsRead.value));
    AdvanceCompose(p, 2, 2);
    var questions := buffer.ReadU16();
    assert buffer.buf[..] == b;
    f := f.(questions := if questions.Ok? then questions.value else 0);
    if questions.Err? {
      return f, Fail(questions.error);
    }
    AdvanceCompose(p, 4, 2);
    var answers := buffer.ReadU16();
    assert buffer.buf[..] == b;
    f := f.(answers := if answers.Ok? then answers.value else 0);
    if answers.Err? {
      return f, Fail(answers.error);
    }
    AdvanceCompose(p, 6, 2);
    var authorities := buffer.ReadU16();
    assert buffer.buf[..] == b;
    f := f.(authoritativeEntries := if authorities.Ok? then authorities.value else 0);
    if authorities.Err? {
      return f, Fail(authorities.error);
    }
    AdvanceCompose(p, 8, 2);
    var additionals := buffer.ReadU16();
    assert buffer.buf[..] == b;
    f := f.(resourceEntries := if additionals.Ok? then additionals.value else 0);
    if additionals.Err? {
      return f, Fail(additionals.error);
    }
    AdvanceCompose(p, 10, 2);
    err := Pass;
  }

  class DnsHeader {
    var ID: uint16
    var RecursionDesired: bool
    var TruncatedMessage: bool
    var AuthoritativeAnswer: bool
    var Opcode: byte
    var Response: bool
    var ResCode: ResultCode
    var CheckingDisabled: bool
    var AuthedData: bool
    var Z: bool
    var RecursionAvailable: bool
    var Questions: uint16
    var Answers: uint16
    var AuthoritativeEntries: uint16
    var ResourceEntries: uint16

    /** The values of the header's flag fields. */
    function FlagFields(): Flags
      reads this`RecursionDesired, this`TruncatedMessage, this`AuthoritativeAnswer, this`Opcode,
            this`Response, this`ResCode, this`CheckingDisabled, this`AuthedData, this`Z,
            this`RecursionAvailable
    {
      Flags(RecursionDesired, TruncatedMessage, AuthoritativeAnswer, Opcode, Response,
            ResCode, CheckingDisabled, AuthedData, Z, RecursionAvailable)
    }

    /** The values of the header's fields. */
    function Fields(): HeaderFields
      reads this
    {
      HeaderFields(ID, FlagFields(), Questions, Answers, AuthoritativeEntries, ResourceEntries)
    }

    /** A header with every field zero or false. */
    constructor ()
      ensures Fields() == HeaderFields(0, Flags(false, false, false, 0, false, NOERROR, false, false, false, false), 0, 0, 0, 0)
    {
      ID := 0;
      RecursionDesired := false;
      TruncatedMessage := false;
      AuthoritativeAnswer := false;
      Opcode := 0;
      Response := false;
      ResCode := NOERROR;
      CheckingDisabled := false;
      AuthedData := false;
      Z := false;
      RecursionAvailable := false;
      Questions := 0;
      Answers := 0;
      AuthoritativeEntries := 0;
      ResourceEntries := 0;
    }

    /** Stores the flags g in the flag fields. */
    method AssignFlags(g: Flags)
      modifies this`RecursionDesired, this`TruncatedMessage, this`AuthoritativeAnswer, this`Opcode,
               this`Response, this`ResCode, this`CheckingDisabled, this`AuthedData, this`Z,
               this`RecursionAvailable
      ensures FlagFields() == g
    {
      var Flags(rd, tc, aa, opcode, qr, rcode, cd, ad, z, ra) := g;
      RecursionDesired, TruncatedMessage, AuthoritativeAnswer, Opcode, Response := rd, tc, aa, opcode, qr;
      ResCode, CheckingDisabled, AuthedData, Z, RecursionAvailable := rcode, cd, ad, z, ra;
    }

    /** Stores the values f in the fields. */
    method Assign(f: HeaderFields)
      modifies this
      ensures Fields() == f
    {
      AssignFlags(f.flags);
      ID := f.id;
      Questions, Answers, AuthoritativeEntries, ResourceEntries := f.questions, f.answers, f.authoritativeEntries, f.resourceEntries;
    }

    /** Reads the header at the cursor into the fields. The reads and the
        values they yield are those of ReadHeaderFields; the fields are then
        stored together, which leaves them as assigning each one after its
        read would, since nothing observes them in between. */
    method Read(buffer: BytePacketBuffer) returns (err: Outcome)
      requires buffer.Valid()
      modifies this, buffer`pos
      ensures buffer.pos == Advance(old(buffer.pos), 12)
      ensures err == if Fits(old(buffer.pos), 12) then Pass else Fail(ShortRead(old(buffer.pos)))
      ensures Fields() == HeaderAt(old(buffer.buf[..]), old(buffer.pos), old(Fields()))
    {
      var f;
      f, err := ReadHeaderFields(buffer, Fields());
      Assign(f);
    }
  }
}
