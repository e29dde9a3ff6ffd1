# HTTP/2 DATA, HEADERS and PRIORITY payload codecs in Dafny

This project models the frame-payload layer of a Go HTTP/2 library. It covers the DATA, HEADERS
and PRIORITY payload records (sections 6.1, 6.2 and 6.3 of RFC 7540) and the byte helpers of
`http2utils/utils.go` they use. Those helpers are big-endian packing, case-insensitive ASCII
comparison, buffer resizing and the padding codec.

Modules. `Bytes` and `Padding` split `http2utils/utils.go` between them, `DataFrame`,
`HeadersFrame` and `PriorityFrame` follow `data.go`, `headers.go` and `priority.go`, and
`Frames` and `Outcomes` stand for types the source takes from elsewhere:

- `Bytes` (bytes.dfy): `Byte`, `Uint32` and `Uint31` as integer subset types. It holds the
  big-endian byte sequences `BE24` and `BE32`, the pack and unpack helpers, `EqualsFold` (a loop,
  proved against the `FoldEqual` predicate), `Resize` and `Mask31` (Go's `& (1<<31 - 1)`).
- `Padding` (padding.dfy): `CutPadding` and `AddPadding`, each in a corrected form and an
  as-written form (see Findings).
- `Frames` (frame.dfy): the frame envelope. Its implementation is not part of this model. It is
  modelled as a class with a type byte, a set of flags carrying their RFC 7540 bits (END_STREAM
  0x1, END_HEADERS 0x4, PADDED 0x8, PRIORITY 0x20), the frame's own stream id, a payload and a
  declared length `Len()`. `SetPayload` fails when the payload exceeds a `maxPayload` field.
- `DataFrame`, `HeadersFrame`, `PriorityFrame` (data.dfy, headers.dfy, priority.dfy): one class
  per record, with fields updated in place. Each ReadFrame is proved against a pure decoding
  function. `Data.WriteFrame` and `Priority.WriteFrame` are proved against the encodings whose
  round trips are proved, and `DataRoundTrip` and `PriorityWriteRead` run WriteFrame then
  ReadFrame on fresh objects. `Headers.WriteFrame` is proved against the source's in-place
  priority write, which does not round-trip (Findings row 4). The HEADERS round trip
  `HeadersRoundTrip` is proved about the corrected encoding `EncodeHeaders`, which no method
  implements. Without a priority to write, `Headers.WriteFrame` produces the same payload as
  `EncodeHeaders` (`WriteFrameMatchesEncodeWithoutPriority`), and `HeadersWriteRead` runs that
  case through both methods.
- `Outcomes` (outcomes.dfy): `Error` (`MissingBytes`, `OutOfRange`, `PayloadTooLarge`),
  `Option`, `Result`, and `GoOutcome`. `GoOutcome` records what as-written Go code does: it
  returns a value, returns an error, or indexes past a slice's length.

Inputs the source draws from outside are parameters:

- the random pad length `padLen`, limited to [9, 255];
- the random filler bytes;
- `spare`, the stale bytes between a slice's length and its capacity, which Go's `Resize`
  brings back into view;
- a recycled pool object (`null` when the pool is empty).

Behaviour that differs from the source, besides the Findings:

- `data.go:107` and `headers.go:136` assign the two results of `CutPadding` to a single
  variable. That does not compile. Both ReadFrames are modelled as returning CutPadding's error
  and leaving the record unchanged.
- Both ReadFrames cut padding with the corrected `CutPadding` guard (Findings row 1), and
  `Headers.ReadFrame` checks the PRIORITY length after the cut (row 3).
- Both WriteFrames pad with `AddPadding` and an arbitrary `filler` of `padLen` bytes. The
  source's padding is the case where the filler's last byte is stale (lemma
  `Padding.AddPaddingAsWrittenIsStaleFiller`), so the model covers the source's behaviour.
- `Headers.WriteFrame` keeps the source's in-place priority write. Because of that it requires
  a header block of at least 6 bytes when the dependency and weight are non-zero; the source
  panics otherwise.
- The masks at `headers.go:143` and `priority.go:74` drop the exclusive bit E of sections 6.2
  and 6.3 of RFC 7540. The model keeps the mask. `PriorityFrame.PriorityIgnoresExclusiveBit`
  shows the bit is lost.
- `Headers.SetStream` stores the dependency unmasked; only `Priority.SetStream` masks it.
- `EqualsFold` ORs every byte with 0x20, so some non-letters compare equal too. For example
  `^` and `~` are equal (`Bytes.FoldCaseConflatesCaretAndTilde`).

## Model

| member | source | states |
|---|---|---|
| `Bytes.BytesToUint24` | http2utils/utils.go:25-30 | the result is below 2^24 and its big-endian bytes are the first three input bytes |
| `Bytes.Uint24RoundTrip` | http2utils/utils.go:18-30 | unpacking what Uint24ToBytes packs gives n mod 2^24 |
| `Bytes.Uint24ToBytes` | http2utils/utils.go:18-23 | writes BE24(n) into b[0..3), reads back as n mod 2^24, leaves b[3..] unchanged |
| `Bytes.BytesToUint32` | http2utils/utils.go:44-51 | the result's big-endian bytes are exactly the first four input bytes |
| `Bytes.Uint32RoundTrip` | http2utils/utils.go:36-51 | unpacking what Uint32ToBytes packs gives n back |
| `Bytes.Uint32ToBytes` | http2utils/utils.go:36-42 | writes BE32(n) into b[0..4), reads back as n, leaves b[4..] unchanged |
| `Bytes.AppendUint32Bytes` | http2utils/utils.go:32-34 | dst is unchanged, followed by exactly the four bytes Uint32ToBytes writes, which read back as n |
| `Bytes.EqualsFold` | http2utils/utils.go:53-64 | true iff the lengths agree and every position agrees after OR-ing 0x20 |
| `Bytes.FoldEqualIsEquivalence` | http2utils/utils.go:53-64 | fold-equality is reflexive, symmetric and transitive |
| `Bytes.FoldCaseOfLetter` | http2utils/utils.go:59 | an upper-case ASCII letter and its lower-case form both fold to the lower-case letter |
| `Bytes.FoldCaseConflatesCaretAndTilde` | http2utils/utils.go:59 | "^" and "~" compare equal: the OR conflates non-letters too |
| `Bytes.Resize` | http2utils/utils.go:66-74 | exactly neededLen bytes; the first min(len(b), neededLen) are b's; then stale capacity bytes; then zeros |
| `Bytes.Mask31` | headers.go:143 | the top bit is cleared and the rest kept: the result is below 2^31, equals n or n - 2^31, and equals n when n < 2^31 |
| `Padding.CutPadding` | http2utils/utils.go:78-87 | succeeds iff the payload is non-empty and 1 <= length-pad <= len(payload); otherwise OutOfRange; on success the content follows the pad byte and content + pad + 1 == length |
| `Padding.CutPaddingAsWritten` | http2utils/utils.go:78-87 | the source's guard: indexes past the payload exactly when it is empty or length-pad == len(payload)+1 |
| `Padding.CutPaddingAgreesAwayFromDefect` | http2utils/utils.go:81-84 | outside those inputs the source and the corrected guard give the same answer and the same bytes |
| `Padding.CutPaddingOverreadExample` | http2utils/utils.go:81-84 | payload [0] with length 2 passes the source's guard and over-reads; the corrected guard rejects it |
| `Padding.AddPadding` | http2utils/utils.go:89-101 | len(b)+n+1 bytes: first the pad length n, then b, then the n filler bytes; stale capacity never shows |
| `Padding.AddPaddingAsWritten` | http2utils/utils.go:89-101 | as the source: only n-1 filler bytes are written, and the last padding byte is a stale capacity byte or 0 |
| `Padding.AddPaddingAsWrittenIsStaleFiller` | http2utils/utils.go:93-98 | the source's padding is the corrected padding whose filler ends with the stale byte |
| `Padding.AddPaddingLeaksStaleByte` | http2utils/utils.go:98 | stale 0x41 capacity bytes leak as the last padding byte, whatever the random filler |
| `Padding.CutAddPadding` | http2utils/utils.go:78-101 | round trip: CutPadding(AddPadding(b), len(AddPadding(b))) succeeds with exactly b |
| `Padding.CutAddPaddingAsWritten` | http2utils/utils.go:78-101 | the same round trip holds for the source's padding |
| `Frames.FlagByte` | headers.go:135-177 | a flag is carried exactly when its bit (END_STREAM 0x1, END_HEADERS 0x4, PADDED 0x8, PRIORITY 0x20) is set in the flag byte |
| `Frames.FlagByteInjective` | headers.go:135-177 | the four bits are distinct: two flag sets with the same flag byte are equal |
| `DataFrame.Data.constructor` | data.go:24-28 | the pool's new object: no flags, empty buffer |
| `DataFrame.Data.Reset` | data.go:43-47 | endStream and hasPadding false, empty buffer |
| `DataFrame.Data.CopyTo` | data.go:50-54 | the target gets endStream, hasPadding and the bytes; the source object is unchanged |
| `DataFrame.Data.SetEndStream` | data.go:57-59 | stores the END_STREAM setting |
| `DataFrame.Data.SetPadding` | data.go:81-83 | stores the padding setting |
| `DataFrame.Data.SetData` | data.go:71-73 | the buffer becomes exactly b |
| `DataFrame.Data.Append` | data.go:86-88 | b is appended to the buffer |
| `DataFrame.Data.Write` | data.go:95-99 | appends b and returns (len(b), nil) |
| `DataFrame.Data.Len` | data.go:90-92 | the buffer length as uint32: at most the length, and equal to it below 2^32 |
| `DataFrame.Data.ReadFrame` | data.go:104-114 | without PADDED: the buffer is the payload, endStream is END_STREAM, no error; with PADDED: CutPadding's bytes, or its error with the record unchanged; the frame is not changed |
| `DataFrame.Data.WriteFrame` | data.go:119-133 | type 0x0; adds END_STREAM iff endStream and PADDED iff hasPadding; with padding the buffer becomes its padded form, which CutPadding maps back to the old buffer; the payload becomes the buffer unless the envelope refuses it |
| `DataFrame.AcquireData` | data.go:31-35 | a recycled or fresh object, reset |
| `DataFrame.DataRoundTrip` | data.go:104-133 | WriteFrame then ReadFrame restores the bytes and END_STREAM, with or without padding |
| `HeadersFrame.DecodeHeaders` | headers.go:133-156 | PRIORITY fields present iff the flag is set; on success, with `rest` the payload after CutPadding (or the whole payload when not PADDED): under PRIORITY the dependency is the big-endian first four bytes of `rest` with the top bit cleared, the weight is `rest[4]` and the fragment is `rest[5..]`, otherwise the fragment is `rest`; MissingBytes iff PRIORITY is set and fewer than 5 bytes remain after the cut; other errors come from CutPadding |
| `HeadersFrame.ReadPriorityAsWritten` | headers.go:139-147 | the source's check: MissingBytes iff the raw payload is short; indexes past the end iff the raw payload is long enough but the cut one is not |
| `HeadersFrame.ReadPriorityOverreadExample` | headers.go:136-144 | a 7-byte padded payload leaving 3 bytes over-reads in the source and gives MissingBytes when corrected |
| `HeadersFrame.DecodeFiveBytePriority` | headers.go:139-152 | every 5-byte payload under PRIORITY decodes to an empty fragment, the big-endian first four bytes with the top bit cleared, and byte 4 as the weight |
| `HeadersFrame.WritePriorityAsWritten` | headers.go:169-174 | the source's in-place write: fails for a block under 6 bytes; otherwise bytes 1..5 read back as fr.stream, byte 5 is the weight, and the rest is unchanged |
| `HeadersFrame.EncodeHeaders` | headers.go:158-182 | corrected encoding: PRIORITY iff stream > 0 and weight > 0; PADDED iff hasPadding; when padded, the payload starts with the pad length, ends with the filler and its padding cuts off cleanly; the unpadded body is BE32(stream), the weight, then the block under PRIORITY, and the block alone otherwise |
| `HeadersFrame.WriteFrameMatchesEncodeWithoutPriority` | headers.go:158-182 | with no priority to write, the source's layout (the block, padded when hasPadding) and its PRIORITY and PADDED flags equal the corrected encoding's |
| `HeadersFrame.HeadersRoundTrip` | headers.go:133-182 | decoding the corrected encoding gives back the header block, and the weight and masked dependency when PRIORITY was set |
| `HeadersFrame.HeadersMasksReservedBit` | headers.go:143 | a dependency of 0xFFFFFFFF is read back as 0x7FFFFFFF |
| `HeadersFrame.WritePriorityAsWrittenBreaksRoundTrip` | headers.go:169-174 | the source's in-place write does not decode back to the header block and priority fields |
| `HeadersFrame.Headers.constructor` | headers.go:23-27 | the pool's new object: all fields zero or false, empty block |
| `HeadersFrame.Headers.Reset` | headers.go:42-49 | clears hasPadding, stream, weight, endStream and endHeaders, and empties rawHeaders |
| `HeadersFrame.Headers.CopyTo` | headers.go:52-59 | copies all six fields into h2; the source object is unchanged |
| `HeadersFrame.Headers.SetHeaders` | headers.go:67-69 | rawHeaders becomes exactly b |
| `HeadersFrame.Headers.AppendRawHeaders` | headers.go:72-74 | b is appended to rawHeaders |
| `HeadersFrame.Headers.SetEndStream` | headers.go:86-88 | stores END_STREAM |
| `HeadersFrame.Headers.SetEndHeaders` | headers.go:96-98 | stores END_HEADERS |
| `HeadersFrame.Headers.SetStream` | headers.go:106-108 | stores the dependency unmasked |
| `HeadersFrame.Headers.SetWeight` | headers.go:116-118 | stores the weight |
| `HeadersFrame.Headers.SetPadding` | headers.go:126-128 | stores the padding setting |
| `HeadersFrame.Headers.ReadFrame` | headers.go:133-156 | on an error (bad padding, or PRIORITY with fewer than 5 bytes) the error is returned and no field changes; otherwise only appends, so the old rawHeaders is a prefix; stream and weight change only under PRIORITY; endStream and endHeaders come from the flags |
| `HeadersFrame.Headers.WritePriorityInPlace` | headers.go:169-174 | adds PRIORITY; BE(fr.stream) goes into rawHeaders[1..5) and the weight into rawHeaders[5] |
| `HeadersFrame.Headers.PadInto` | headers.go:176-179 | adds PADDED and replaces rawHeaders by its padded form |
| `HeadersFrame.Headers.WriteFrame` | headers.go:158-182 | type 0x1; END_STREAM and END_HEADERS iff set; PRIORITY iff stream > 0 and weight > 0, with the in-place write; PADDED iff hasPadding; returns the envelope's error, payload unchanged on refusal |
| `HeadersFrame.HeadersWriteRead` | headers.go:133-182 | with dependency and weight zero, WriteFrame then ReadFrame on fresh objects gives back the header block, END_STREAM and END_HEADERS, with or without padding |
| `HeadersFrame.AcquireHeaders` | headers.go:30-34 | a recycled or fresh object, reset |
| `PriorityFrame.EncodePriority` | priority.go:81-85 | five bytes: four that read back as the dependency, then the weight |
| `PriorityFrame.DecodePriority` | priority.go:70-78 | MissingBytes iff fewer than 5 bytes; otherwise the weight is byte 4 and the dependency's bytes equal the first four bytes with the top bit cleared |
| `PriorityFrame.MaskedBytes` | priority.go:74 | masking changes only the top bit of the first byte |
| `PriorityFrame.PriorityRoundTrip` | priority.go:70-85 | reading what WriteFrame writes gives the weight and the masked dependency, or the dependency itself when below 2^31 |
| `PriorityFrame.PriorityMasksReservedBit` | priority.go:74 | a dependency of 0xFFFFFFFF is read back as 0x7FFFFFFF |
| `PriorityFrame.PriorityIgnoresExclusiveBit` | priority.go:74 | payloads differing only in the exclusive bit E decode alike |
| `PriorityFrame.PriorityIgnoresTrailingBytes` | priority.go:74-75 | bytes after index 4 are ignored |
| `PriorityFrame.PriorityMissingBytesExample` | priority.go:71-72 | the 4-byte payload [0,0,0,1] gives MissingBytes |
| `PriorityFrame.Priority.constructor` | priority.go:19-23 | the pool's new object: zero dependency and weight |
| `PriorityFrame.Priority.Reset` | priority.go:38-41 | zero dependency and weight; the invariant stream < 2^31 holds |
| `PriorityFrame.Priority.CopyTo` | priority.go:44-47 | the target gets both fields and keeps the invariant; the source object is unchanged |
| `PriorityFrame.Priority.SetStream` | priority.go:55-57 | stores the dependency with its top bit cleared, so it is below 2^31 |
| `PriorityFrame.Priority.SetWeight` | priority.go:65-67 | stores the weight |
| `PriorityFrame.Priority.ReadFrame` | priority.go:70-78 | MissingBytes with stream and weight unchanged below 5 bytes; otherwise the decoded fields; keeps stream < 2^31 |
| `PriorityFrame.Priority.WriteFrame` | priority.go:81-85 | type 0x2; the payload is exactly EncodePriority(stream, weight), replacing the old one, and decodes back to the fields |
| `PriorityFrame.AcquirePriority` | priority.go:26-29 | the recycled object as it was, with no reset, or a fresh zero one; either way the dependency is below 2^31 |
| `PriorityFrame.ReleasePriority` | priority.go:32-35 | the object is reset before it goes back to the pool |
| `PriorityFrame.PriorityWriteRead` | priority.go:70-85 | WriteFrame then ReadFrame gives the weight and the masked dependency |

## Findings

| source | as written | input that shows it | evidently intended | confidence | as-written member | corrected member |
|---|---|---|---|---|---|---|
| http2utils/utils.go:79-84 | reads `payload[0]` with no length check, and the guard `len(payload) < length-pad-1` admits `len(payload) == length-pad-1`, so `payload[1:length-pad]` ends past the payload | payload `[0]`, declared length 2 | reject with the out-of-range error | high, not executed | `Padding.CutPaddingAsWritten`, `Padding.CutPaddingOverreadExample` | `Padding.CutPadding`, `Padding.CutAddPadding` |
| http2utils/utils.go:98 | `rand.Read(b[nn+1 : nn+n])` fills n-1 of the n padding bytes; the last is a stale byte from the buffer's capacity, or 0 | empty data, spare capacity of nine 0x41 bytes, pad length 9: the last padding byte is 0x41 | fill all n padding bytes | high, not executed | `Padding.AddPaddingAsWritten`, `Padding.AddPaddingLeaksStaleByte` | `Padding.AddPadding`, `Padding.CutAddPadding` |
| headers.go:140 | under PRIORITY the length check uses the raw `fr.payload`, not the payload left after cutting the padding | flags PADDED and PRIORITY, payload `[3,9,9,9,0,0,0]`, declared length 7: 3 bytes remain and 5 are read | check the cut payload and report MissingBytes | high, not executed | `HeadersFrame.ReadPriorityAsWritten`, `HeadersFrame.ReadPriorityOverreadExample` | `HeadersFrame.DecodeHeaders`, `HeadersFrame.Headers.ReadFrame` |
| headers.go:172-173 | writes the frame's own stream id over `rawHeaders[1:5]` and the weight over `rawHeaders[5]`, overwriting header bytes instead of prefixing the dependency and weight | block `[0x82,0x86,0x84,0x41,0x8a,0x08,0x9d]`, frame stream 1, dependency 1, weight 16: decoding gives a different block and priority | emit `[4-byte dependency][weight]` in front of the block | high, not executed | `HeadersFrame.Headers.WriteFrame`, `HeadersFrame.WritePriorityAsWrittenBreaksRoundTrip` | `HeadersFrame.EncodeHeaders`, `HeadersFrame.HeadersRoundTrip` |

## Left out

- Pool sharing and thread safety (`sync.Pool`): each Acquire is modelled by its reset effect on a recycled object, or a fresh one when the pool is empty. No claim is made about concurrent use.
- ReleaseData and ReleaseHeaders: they only hand the object to the pool and change no state.
- Randomness: the pad length and the filler bytes of AddPadding are parameters.
- AssertEqual: a test helper built on reflection and logging.
- FastBytesToString: an unsafe pointer cast with no byte-level meaning.
- Headers.AppendHeaderField: it delegates to the HPACK encoder, which is not part of this model.
- The getters (EndStream, EndHeaders, Data, Headers, Stream, Weight, Padding): they return a field, and the model reads the field.
- The frame envelope's internals: its negotiated size limit is the `maxPayload` field, and flag bits other than the four used here are not represented.
- Slice aliasing: buffers are sequence values, so sharing between the slice returned by Data() or Headers() and the record's buffer is not modelled. Spare capacity appears only as the `spare` parameter of Resize and AddPadding.
- HeadersFrame.EncodeHeaders: leaves out END_STREAM and END_HEADERS, which do not affect the payload; Headers.WriteFrame models them.
