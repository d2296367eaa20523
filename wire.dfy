/** Wire-level vocabulary of the DNS message reader: fixed-width unsigned
    integers, the ways a read can fail, the big-endian reading of octets
    and the cursor arithmetic of a run of single-octet reads. */
module Wire {

  /** Capacity of the packet buffer: the classic 512-octet DNS message over UDP. */
  const BufferSize: nat := 512

  /** Go's uint8, uint16 and uint32. Bit operations of the reader are written
      arithmetically on these: for values of this width, `x >> k` is `x / 2^k`,
      `x & 1` is `x % 2` and `hi << 8 | lo` is `hi * 256 + lo`. */
  type byte = x: int | 0 <= x < 0x100
  type uint16 = x: int | 0 <= x < 0x1_0000
  type uint32 = x: int | 0 <= x < 0x1_0000_0000

  /** A record type code (Go's QueryType, a uint16); codes the reader does
      not know are kept as they are. */
  type QueryType = uint16

  /** Failures of the reader.
      EndOfBuffer: the reader's own "end of buffer" error.
      IndexOutOfRange: an array index or slice bound the reader does not check
      itself, which is a run-time panic in the original program.
      JumpLimitExceeded: name decompression followed more than 5 pointers. */
  datatype Error = EndOfBuffer | IndexOutOfRange | JumpLimitExceeded

  datatype Result<T> = Ok(value: T) | Err(error: Error)

  datatype Outcome = Pass | Fail(error: Error)

  function Pow256(n: nat): (p: nat)
    ensures p > 0
  {
    if n == 0 then 1 else 0x100 * Pow256(n - 1)
  }

  function Pow2(n: nat): (p: nat)
    ensures p > 0
  {
    if n == 0 then 1 else 2 * Pow2(n - 1)
  }

  /** The unsigned integer that the octets `s` denote, most significant first. */
  function BigEndian(s: seq<byte>): (v: nat)
    ensures v < Pow256(|s|)
  {
    if s == [] then 0 else BigEndian(s[..|s| - 1]) * 0x100 + s[|s| - 1]
  }

  /** Bit k (0 = least significant) of the non-negative integer w. */
  predicate Bit(w: nat, k: nat) {
    (w / Pow2(k)) % 2 == 1
  }

  /** A flag as the bit it is stored in. */
  function BitOf(x: bool): nat {
    if x then 1 else 0
  }

  lemma MulAtLeast(x: int, d: int)
    requires x >= 1 && d > 0
    ensures x * d >= d
  {
  }

  /** Division by d undoes multiplication by d and leaves the remainder. */
  lemma DivMod(a: int, d: int, r: int)
    requires d > 0 && 0 <= r < d
    ensures (a * d + r) / d == a && (a * d + r) % d == r
  {
    var n := a * d + r;
    var q, m := n / d, n % d;
    assert n == q * d + m;
    assert (q - a) * d == r - m;
    if q - a >= 1 {
      MulAtLeast(q - a, d);
      assert false;
    } else if a - q >= 1 {
      MulAtLeast(a - q, d);
      assert false;
    }
  }

  /** A word made of higher bits, one bit at position k and lower bits has
      that bit at position k; unit is the weight 2^k of that position. */
  lemma BitAt(w: nat, k: nat, unit: nat, hi: nat, bit: nat, lo: nat)
    requires unit == Pow2(k) && bit < 2 && lo < unit
    requires w == (hi * 2 + bit) * unit + lo
    ensures Bit(w, k) <==> bit == 1
  {
    DivMod(hi * 2 + bit, unit, lo);
    DivMod(hi, 2, bit);
  }

  /** The 16-bit word stored big-endian at b[i], b[i+1]. */
  function WordAt(b: seq<byte>, i: int): uint16
    requires 0 <= i && i + 2 <= |b|
  {
    assert Pow256(2) == 0x1_0000;
    BigEndian(b[i..i + 2])
  }

  /** The 32-bit word stored big-endian at b[i..i+4]. */
  function DoubleWordAt(b: seq<byte>, i: int): uint32
    requires 0 <= i && i + 4 <= |b|
  {
    assert Pow256(4) == 0x1_0000_0000;
    BigEndian(b[i..i + 4])
  }

  lemma {:induction false} BigEndianSnoc(s: seq<byte>, x: byte)
    ensures BigEndian(s + [x]) == BigEndian(s) * 0x100 + x
  {
    assert (s + [x])[..|s + [x]| - 1] == s;
  }

  /** A 16-bit word read as two octets is the octets' big-endian value. */
  lemma BigEndianPair(hi: byte, lo: byte)
    ensures BigEndian([hi, lo]) == hi * 0x100 + lo
  {
    BigEndianSnoc([hi], lo);
    BigEndianSnoc([], hi);
    assert [] + [hi] == [hi];
  }

  /** A 32-bit word read as four octets is the octets' big-endian value. */
  lemma BigEndianQuad(b1: byte, b2: byte, b3: byte, b4: byte)
    ensures BigEndian([b1, b2, b3, b4]) == ((b1 * 0x100 + b2) * 0x100 + b3) * 0x100 + b4
  {
    BigEndianSnoc([b1, b2, b3], b4);
    BigEndianSnoc([b1, b2], b3);
    assert [b1, b2] + [b3] == [b1, b2, b3];
    assert [b1, b2, b3] + [b4] == [b1, b2, b3, b4];
    BigEndianPair(b1, b2);
  }

  /** The two octets that store x big-endian. */
  function EncodeWord(x: uint16): seq<byte> {
    [x / 0x100, x % 0x100]
  }

  /** The four octets that store x big-endian. */
  function EncodeDoubleWord(x: uint32): seq<byte> {
    [x / 0x100_0000, (x / 0x1_0000) % 0x100, (x / 0x100) % 0x100, x % 0x100]
  }

  /** A word stored with EncodeWord reads back as itself. */
  lemma WordAtEncoded(b: seq<byte>, i: int, x: uint16)
    requires 0 <= i && i + 2 <= |b| && b[i..i + 2] == EncodeWord(x)
    ensures WordAt(b, i) == x
  {
    BigEndianPair(x / 0x100, x % 0x100);
  }

  /** A double word stored with EncodeDoubleWord reads back as itself. */
  lemma DoubleWordAtEncoded(b: seq<byte>, i: int, x: uint32)
    requires 0 <= i && i + 4 <= |b| && b[i..i + 4] == EncodeDoubleWord(x)
    ensures DoubleWordAt(b, i) == x
  {
    var e := EncodeDoubleWord(x);
    BigEndianQuad(e[0], e[1], e[2], e[3]);
    var x1, x2 := x / 0x100, x / 0x1_0000;
    assert x2 == x1 / 0x100;
    assert x / 0x100_0000 == x2 / 0x100;
    assert (e[0] as int) * 0x100 + e[1] == x2;
    assert x2 * 0x100 + e[2] == x1;
  }

  /** Part of a stored octet string is stored at the corresponding place. */
  lemma StoredSlice(b: seq<byte>, pos: int, e: seq<byte>, i: int, j: int)
    requires 0 <= pos && pos + |e| <= |b| && b[pos..pos + |e|] == e
    requires 0 <= i <= j <= |e|
    ensures b[pos + i..pos + j] == e[i..j]
  {
    forall k | 0 <= k < j - i ensures b[pos + i..pos + j][k] == e[i..j][k] {
      assert b[pos..pos + |e|][i + k] == e[i + k];
    }
  }

  /** Octets x + y stored at p are x stored at p and y stored after it. */
  lemma StoredPair(b: seq<byte>, p: int, x: seq<byte>, y: seq<byte>)
    requires 0 <= p && p + |x + y| <= |b| && b[p..p + |x + y|] == x + y
    ensures b[p..p + |x|] == x && b[p + |x|..p + |x| + |y|] == y
  {
    StoredSlice(b, p, x + y, 0, |x|);
    StoredSlice(b, p, x + y, |x|, |x| + |y|);
    assert (x + y)[..|x|] == x && (x + y)[|x|..|x| + |y|] == y;
  }

  /** Octets x + y + z stored at p are x, y and z stored one after the other. */
  lemma StoredTriple(b: seq<byte>, p: int, x: seq<byte>, y: seq<byte>, z: seq<byte>)
    requires 0 <= p && p + |x + y + z| <= |b| && b[p..p + |x + y + z|] == x + y + z
    ensures b[p..p + |x|] == x && b[p + |x|..p + |x| + |y|] == y
    ensures b[p + |x| + |y|..p + |x| + |y| + |z|] == z
  {
    StoredPair(b, p, x + y, z);
    StoredPair(b, p, x, y);
  }

  /** The value the original leaves in a 16-bit field assigned from the word
      at offset k of a run of word reads started at cursor p: the decoded word
      when its read succeeds, the zero value returned with the error when the
      reads before it succeeded and its own read fails, and the previous value
      prior when an earlier read had already failed. */
  function AssignedWord(b: seq<byte>, p: int, k: nat, prior: uint16): uint16
    requires |b| == BufferSize
  {
    if Fits(p, k + 2) then WordAt(b, p + k)
    else if k == 0 || Fits(p, k) then 0
    else prior
  }

  /** n octets starting at cursor p lie inside the buffer, so n single-octet
      reads from p all succeed. */
  predicate Fits(p: int, n: nat) {
    0 <= p && p + n <= BufferSize
  }

  /** Where n single-octet reads started at cursor p leave the cursor, whether
      or not they all succeed: each successful read moves it by one, the first
      read at 512 fails without moving it, and a negative cursor panics at the
      first read. */
  function Advance(p: int, n: nat): int {
    if 0 <= p < BufferSize then (if p + n <= BufferSize then p + n else BufferSize) else p
  }

  /** The error of a run of reads from p that does not fit. */
  function ShortRead(p: int): Error {
    if p < 0 then IndexOutOfRange else EndOfBuffer
  }

  /** Runs of reads compose: reading a then b octets is reading a + b octets,
      with the same cursor and the same verdict. */
  lemma AdvanceCompose(p: int, a: nat, b: nat)
    ensures Advance(Advance(p, a), b) == Advance(p, a + b)
    ensures Fits(p, a + b) <==> Fits(p, a) && Fits(p + a, b)
    ensures Fits(p, a) && !Fits(p + a, b) ==> ShortRead(p + a) == ShortRead(p)
  {
  }
}
