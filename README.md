# gdns message reader in Dafny

This project models the DNS wire-format reader of `gdns.go` and proves properties of it. The reader works over a fixed 512-octet packet buffer with an integer cursor. On top of the buffer's primitive reads it decodes:

- the 12-octet header, with its flags word;
- questions;
- resource records of type A, AAAA, CNAME and MX;
- domain names, including the compression pointers of section 4.1.4 of RFC 1035 and the limit of five jumps.

The project has six modules, one file each:

- `wire.dfy` (`Wire`) is the shared vocabulary:
  - octets and the 16- and 32-bit words as integer subtypes;
  - the three ways a read can fail: the reader's own end-of-buffer error, an index panic, and the jump limit;
  - big-endian reading;
  - `Advance`, the cursor arithmetic of a run of single-octet reads. A failing read does not move the cursor, but the reads before it have moved it.
- `names.dfy` (`Names`) is the name decoder as a pure specification.
  - `NextMove` is one iteration of the decoding loop of `Read_qname`.
  - `Run` iterates it, terminating on the pair (jumps left, 512 − local position).
  - `NameAt` is the decode that starts at a cursor.
  - It also holds the encoders of uncompressed names and pointers, and the lemmas about decoding them.
- `packet.dfy` (`Packet`) holds the class `BytePacketBuffer`, with a `const` array and a mutable `pos`. Its methods are proved against the functions above, and `ReadQname` is the loop of `Read_qname` with its invariants.
- `header.dfy` (`Header`) holds the response codes, the decoding of the flags word and the class `DnsHeader`.
- `records.dfy` (`Records`) holds the class `DnsQuestion`, the `DnsRecord` value, `DnsRecordRead` with its address-filling loop, and the round trips of questions and records.
- `message.dfy` (`Message`) holds the driving loop of `main`: the header once, then as many questions as it counts, then as many answer records.

Each imperative operation is a method whose `ensures` ties its result and the new cursor to a specification function of the old buffer contents and cursor. Those functions are the partners of the round-trip and boundary lemmas.

Where the reader departs from the DNS standard, the model follows the code:

- **Flag bits.** CD, AD and Z are taken from bits 12, 13 and 14 of the flags word. Those bits belong to the opcode. Section 4.1.1 of RFC 1035 reserves bits 4 to 6 for Z, and the header layout of section 2 of RFC 6895 puts AD and CD at bits 5 and 4. `FlagsShareOpcodeBits` and `FlagsDifferFromRfc` state the consequences.
- **Range check.** The range check of `GetRange` is strict, so a label whose last octet is octet 511 is refused (`LabelEndingAtBufferEndRefused`).
- **Unchecked index.** `Get` checks the cursor but not the index, so a pointer target beyond the buffer is an index panic (`PointerBeyondBuffer`, `PointerInLastOctet`).
- **Unknown record types.** Types other than A, AAAA, CNAME and MX read nothing after the data length, which is never consulted. This includes NS. The cursor is left at the start of the record's data (`RecordRoundTrip`, where such a record's payload is empty).
- **Question count.** A header that counts more questions than the message holds is not rejected while the zero padding of the buffer lasts: five zero octets read as a question with an empty name (`ZeroPaddingQuestions`).
- **Jump limit.** The limit is checked at the top of the loop, before the next octet is read. So a sixth jump fails at the following check (`SixthJumpFails`), and five jumps still succeed (`FiveJumpsSucceed`).

## Model

| member | source | states |
|---|---|---|
| Packet.BytePacketBuffer.constructor | gdns.go:15-20 | a new buffer holds 512 zero octets and its cursor is 0 |
| Packet.BytePacketBuffer.Step | gdns.go:28-31 | the cursor moves by the given amount, unchecked |
| Packet.BytePacketBuffer.Seek | gdns.go:34-37 | the cursor is set to the given position, unchecked |
| Packet.BytePacketBuffer.Read | gdns.go:40-47 | below 512 the octet under the cursor is returned and the cursor advances by one; at or beyond 512 it is the end-of-buffer error with the cursor unchanged; a negative cursor is an index panic |
| Packet.BytePacketBuffer.Get | gdns.go:50-56 | returns `Names.Peek` of the contents, cursor and index, the same function the name decoder's specification reads octets with: end of buffer iff the cursor is at or beyond 512, otherwise the octet at the index or an index panic; the cursor never moves |
| Packet.BytePacketBuffer.GetRange | gdns.go:59-64 | returns `Names.PeekRange`, the range read of the name decoder's specification: end of buffer iff start + len >= 512, so a range ending at octet 511 is refused; otherwise exactly buf[start..start+len], or a panic for a negative bound |
| Packet.BytePacketBuffer.ReadU16 | gdns.go:67-77 | if two octets fit at the cursor, returns their big-endian word and advances by 2; otherwise returns the end-of-buffer error (or a panic), with the cursor left where the reads stopped |
| Packet.BytePacketBuffer.ReadU16Query | gdns.go:79-89 | the same result and cursor as ReadU16, typed as a record type |
| Packet.BytePacketBuffer.ReadU32 | gdns.go:92-110 | the big-endian value of four octets and an advance of 4, or the error of the first failing read with the cursor moved by the reads before it |
| Packet.BytePacketBuffer.ReadQname | gdns.go:114-167 | appends to the given text exactly the text of NameAt, and ends with its cursor and outcome; the prior text is kept as a prefix |
| Wire.WordAtEncoded | gdns.go:67-77 | a word stored as its two big-endian octets is read back as itself |
| Wire.DoubleWordAtEncoded | gdns.go:92-110 | a 32-bit value stored as four big-endian octets is read back as itself |
| Wire.AdvanceCompose | gdns.go:67-110 | a run of a reads then b reads gives the same cursor and verdict as a + b reads, with the same error |
| Names.PointerTarget | gdns.go:140 | the offset a pointer designates is below 0x4000 |
| Names.PointerRoundTrip | gdns.go:130-140 | the two octets of an encoded pointer are recognised as a pointer, and they designate its offset |
| Names.NextMove | gdns.go:121-160 | each iteration of the decoding loop either uses one jump or advances the local position strictly while staying inside the buffer, which is the termination argument |
| Names.WalkOneLabel | gdns.go:144-160 | a stored label appends the separator and the label, and the walk continues after it with '.' as the separator |
| Names.WalkLabels | gdns.go:144-160 | a run of stored labels appends their dotted text and continues after them |
| Names.WalkName | gdns.go:144-164 | an uncompressed name appends its dotted text and, without a jump, leaves the real cursor one past its terminating zero |
| Names.DecodeEncodedName | gdns.go:114-167 | an uncompressed name stored at p decodes to its labels joined by '.', with the cursor one past the zero octet |
| Names.WalkPointer | gdns.go:130-143 | a pointer continues the walk at its target; only the first pointer moves the real cursor, to just past the pointer |
| Names.DecodeCompressedName | gdns.go:130-164 | labels followed by a pointer to a stored name decode to the whole dotted name, and the cursor ends just past the pointer rather than in the pointed-to region |
| Names.WalkChain | gdns.go:130-143 | a chain of pointers uses one jump per pointer, and only the first pointer moves the real cursor |
| Names.SixthJumpFails | gdns.go:121-143 | a chain of six pointers fails with the jump-limit error, with nothing appended and the cursor just past the first pointer |
| Names.FiveJumpsSucceed | gdns.go:121-164 | a chain of five pointers ending at a stored name still decodes that name |
| Names.SelfPointerFails | gdns.go:121-143 | a pointer to itself ends with the jump-limit error |
| Names.WalkCursor | gdns.go:130-164 | on success, without a jump the cursor ends strictly after the start and at most at 512; after a jump it stays put |
| Names.NameAtAdvances | gdns.go:114-167 | a successful decode leaves the cursor strictly after where it started and inside the buffer |
| Names.ZeroOctetIsEmptyName | gdns.go:145-148 | a single zero octet is the empty name and moves the cursor by one |
| Names.LabelEndingAtBufferEndRefused | gdns.go:144-156 | a label whose last octet is octet 511 is refused with the end-of-buffer error, with nothing appended |
| Names.PointerAtBufferEnd | gdns.go:130-138 | a first pointer in octets 510 and 511 moves the cursor to 512, and then reading its second octet fails |
| Names.PointerBeyondBuffer | gdns.go:124-143 | a pointer to an offset beyond the buffer leads to an index panic at its target |
| Names.PointerInLastOctet | gdns.go:130-138 | a second pointer in octet 511 reads its second octet at index 512, which is an index panic rather than the end-of-buffer error |
| Header.ResultCodeFromNum | gdns.go:202-217 | codes 1 to 5 map to themselves (FORMERR to REFUSED) and every other code maps to NOERROR |
| Header.ResultCodeName | gdns.go:182-199 | the name is "UNKNOWN" exactly for codes above REFUSED |
| Header.ResultCodeFromNumIdempotent | gdns.go:202-217 | mapping a mapped code again changes nothing |
| Header.ResultCodeNamesDistinct | gdns.go:182-217 | the six known codes have distinct names, and no mapped code is named "UNKNOWN" |
| Header.DecodeFlagsShifts | gdns.go:272-282 | the decoded flags are the shift-and-mask values: RD bit 8, TC bit 9, AA bit 10, opcode bits 11-14, QR bit 15, the mapped low four bits, CD/AD/Z bits 12/13/14, RA bit 7 |
| Header.FlagsShareOpcodeBits | gdns.go:275-281 | CD, AD and Z are always bits 1, 2 and 3 of the decoded opcode |
| Header.DecodeEncodeFlags | gdns.go:272-282 | flags laid out in a word as section 4.1.1 of RFC 1035 does are decoded back to themselves whenever CD/AD/Z agree with the opcode bits they are read from |
| Header.StandardResponseFlags | gdns.go:272-282 | the usual answer flags 0x8180 decode to a response with RD and RA set, opcode 0 and NOERROR |
| Header.FlagsDifferFromRfc | gdns.go:279-281 | bits 5 and 4 do not set AD or CD, while the STATUS opcode (2) sets CD |
| Header.HeaderRoundTrip | gdns.go:260-305 | a stored header reads back as itself, whatever the fields held before |
| Header.ReadHeaderFields | gdns.go:260-305 | six word reads advance the cursor by 12 or fail with the short-read error, and give HeaderAt: the fields read so far, zero for the failing word, the flags untouched when their word fails |
| Header.DnsHeader.constructor | gdns.go:239-257 | a new header has every field zero or false and NOERROR |
| Header.DnsHeader.AssignFlags | gdns.go:272-282 | the ten flag fields hold the given flags |
| Header.DnsHeader.Assign | gdns.go:260-305 | all fifteen fields hold the given values |
| Header.DnsHeader.Read | gdns.go:260-305 | the header's fields become HeaderAt of the old buffer, cursor and fields; the cursor and the error are those of twelve octet reads |
| Records.DnsQuestion.constructor | gdns.go:454 | a new question has an empty name and zero type and class |
| Records.DnsQuestion.Read | gdns.go:315-332 | the name is decoded and appended, then the type and class words are read, each field assigned as it is read; fields, cursor and error are those of QuestionAt |
| Records.QuestionRoundTrip | gdns.go:315-332 | a stored question (name, type, class) reads back as itself and leaves the cursor just past it |
| Records.ZeroPaddingReadsAsQuestion | gdns.go:315-332 | five zero octets read as a question with an empty name, type 0 and class 0 |
| Records.OctetsAt | gdns.go:388-397 | n reads made one at a time agree with the bulk view: they succeed iff n is 0 or n octets fit at the cursor, and then give exactly the slice of n octets; a failure carries the error of the first read that fails, and the cursor ends where Advance says |
| Records.OctetsAtSplit | gdns.go:388-408 | a + c single-octet reads are a reads followed by c reads from where the first run left the cursor: the octets concatenate, and the cursor and verdict are those of the second run |
| Records.ReadAddress | gdns.go:388-408 | the loop that fills the address returns the octets, cursor and verdict of OctetsAt: exactly the n octets at the cursor, or the error of the first failing read, for every n including 0 |
| Records.ReadFixed | gdns.go:366-384 | type, class, TTL and data length are read in that order from 10 octets, or the first failing read's error |
| Records.ReadPayload | gdns.go:387-425 | by type: 4 octets for A, 16 for AAAA, a name for CNAME, a priority word and a name for MX, nothing for any other type |
| Records.DnsRecordRead | gdns.go:359-427 | the record and cursor are those of RecordAt: name, fixed fields, then the payload its type calls for |
| Records.FixedRoundTrip | gdns.go:366-384 | stored type, class, TTL and data-length words read back as themselves |
| Records.MxPayloadRoundTrip | gdns.go:416-425 | a stored MX priority and host read back as themselves |
| Records.PayloadRoundTrip | gdns.go:387-425 | a stored payload reads back into the record; for an unknown type nothing is consumed and addr, host and priority keep their defaults |
| Records.RecordRoundTrip | gdns.go:359-427 | a stored record reads back as itself and leaves the cursor just past what the reader consumes, whatever its data length says |
| Message.QuestionsAt | gdns.go:453-461 | a successful run of question reads yields exactly the counted number of questions |
| Message.AnswersAt | gdns.go:464-471 | a successful run of record reads yields exactly the counted number of records |
| Message.MessageAt | gdns.go:443-471 | a successfully read message has the header read at the start, and as many questions and answers as it counts; the read also yields the cursor the last read left |
| Message.QuestionsFailureStays | gdns.go:453-461 | the first failing question read ends the run; no later read changes the result |
| Message.AnswersFailureStays | gdns.go:464-471 | the first failing record read ends the run; no later read changes the result |
| Message.ZeroPaddingQuestions | gdns.go:453-461 | n times five zero octets read as n empty questions, so a question count larger than the questions present is not detected |
| Message.ReadNextQuestion | gdns.go:454-459 | reading one more question into a new question extends the run of questions by one step |
| Message.ReadQuestions | gdns.go:453-461 | the loop reads the counted questions, with the result, cursor and error of QuestionsAt |
| Message.ReadNextAnswer | gdns.go:465-469 | reading one more record extends the run of records by one step |
| Message.ReadAnswers | gdns.go:464-471 | the loop reads the counted records, with the result, cursor and error of AnswersAt |
| Message.ReadMessage | gdns.go:443-471 | the header, then its questions, then its answers are read from the cursor, giving exactly the result of MessageAt, or the first error, and leaving the cursor where MessageAt says: past the answers on success, where the failing read left it otherwise |

## Left out

- `main` reads a file, copies it into the buffer, prints each part and exits on error. File I/O, the copy, printing and exiting are not modelled. `Message.ReadMessage` takes a buffer whose contents are already set and returns the first error instead of exiting.
- Error text from `fmt.Errorf` is not modelled: errors are the three kinds in `Wire.Error`. Go panics (an index or slice bound outside the array, a negative cursor) are modelled as the `IndexOutOfRange` error, which ends the read like any other error.
- Go's `int` is 64-bit, and `Step` or `Seek` could in principle overflow it; the model's cursor is an unbounded integer.
- Names are octet sequences with '.' (0x2E) as the separator. The conversion of octets to a Go `string` (UTF-8) is not modelled.
- `Addr` holds the raw 4 or 16 octets read. `net.IPv4` builds a 16-octet IPv4-mapped address, and that form and its textual rendering are not modelled.
- `Pos` is modelled as a function returning the cursor; it has no contract of its own.
- Header.DnsHeader.Read: it stores the fields in one step once the reads are done, rather than each field right after its read. Nothing can observe the header in between, so the final state, cursor and error are the same as in the original.
- The converse of `Header.DecodeEncodeFlags` (word to flags to word) is not a property of the reader and is not stated. Decoding ignores bits 4 to 6 and maps codes 6 to 15 to NOERROR, so distinct words decode to the same flags.
- `main` reads only the answer section; the authority and additional sections are not read, and the model does the same.
