# BoringSSL transport and handshake, and the nanopb codec

A Dafny model of the hard parts of the C and C++ libraries that the app bundles, with proofs about every run or every
input. `dafny verify dfyconfig.toml` checks all of it.

- **DTLS handshake transport** (`HandshakeWire`, `Bits`, `Reassembly`, `DtlsReceiving`, `DtlsReceiver`, `DtlsFlight`,
  `DtlsSender`, `DtlsDelivery`, `DtlsEndpoint`, `DtlsRun`, `ReplayWindow`): fragmenting and retransmitting a flight,
  reassembly with a bitmask in a ring of seven messages, the replay window and the two write epochs, as in sections 4.1.2.6, 4.2.2 and 4.2.3 of RFC 6347. A
  sender and a receiver are run over a network that loses, repeats and reorders records.
- **nanopb** (`NanopbTypes`, `NanopbEncode`, `NanopbDecode`, `NanopbPrimitives`, `NanopbRoundTrip`, `NanopbWriter`,
  `NanopbFields`, `NanopbReader`, `NanopbWire`, `NanopbSound`): the encoder and the decoder as functions of descriptors,
  messages and bytes, with their round trip and schema projection, the bytes on the wire and what decoding means on any bytes;
  and the loops over streams, iterators and bit words, which refine those functions.
- **TLS 1.2 handshake** (`TlsMessages`, `TlsClient`, `TlsServer`, `TlsScript`, `TlsClientSide`, `TlsServerSide`, `TlsJoint`,
  `TlsRun`, `TlsPeer`, `TlsFlow`, `TlsClientSafety`, `TlsServerSafety`): both state machines, joined by two FIFO channels, and
  each of them alone against any peer (section 7.3 of RFC 5246).
- **TLS write path** (`WritePath`): write buffer, pending flight and retry bookkeeping over a transport that may take part
  of what it is given, with the wire and the seal log as ghost state.
- **Reference counts** (`Refcount`), **cipher choice** (`ChooseCipher`) and **premaster selection** (`ConstantTime`,
  `Premaster`).

Mutable objects are classes whose methods are proved against functions on values; theorems about runs are lemmas about those
functions, or methods that take an arbitrary script. The transport, the ciphers, callbacks and schedulers are arbitrary
choices.

Two places where code and documentation differ, and the model follows the code. In `d1_both.cc` message numbers more than
seven ahead are ignored, but the number exactly seven ahead takes the fatal return; `DtlsDelivery.FatalExactly` says exactly
which fragments are fatal, and `DtlsDelivery.SevenAheadIsFatal` gives the input. In nanopb a string may fill its array and
is then encoded, although the decoder refuses it; `NanopbRoundTrip.StringRoundTrip` gives the exact condition, and
`NanopbRoundTrip.FullStringRefused` the input.

The nanopb class of messages (`NanopbRoundTrip.Fits`) is: values in the range of their C type, byte arrays that fit, strings
without NUL and shorter than their array, at most one member of a union, and an encoding below 4 GiB. Descriptors
(`NanopbTypes.ValidFields`) have distinct tags from 1 up to 2^29, and a number of required fields for which the presence check
is defined: at 32 it would shift by the whole word, at 64 it would index past its two words. `pb_size_t` has 32 bits, as the
app's build settings say.

## Model

| member | source | states |
|---|---|---|
| `Bits.BitRangeBits` | Scholarli/Pods/BoringSSL/ssl/d1_both.cc:210-214 | `bit_range(start, end)` sets exactly the bits from `start` up to `end` of a byte |
| `Bits.FullPrefix` | Scholarli/Pods/BoringSSL/ssl/d1_both.cc:247-256 | the two comparisons of the completion test hold exactly when the low bits, and no others, are set |
| `Reassembly.SetRange` | Scholarli/Pods/BoringSSL/ssl/d1_both.cc:216-242 | the in-place marking, whole bytes in the middle and partial ones at the ends, equals a bitwise specification on every byte |
| `Reassembly.WithRangeSet` | Scholarli/Pods/BoringSSL/ssl/d1_both.cc:216-242 | marking a range adds exactly its positions to the set of marked positions |
| `Reassembly.IsFull` | Scholarli/Pods/BoringSSL/ssl/d1_both.cc:247-260 | the test of the mask succeeds exactly when every position of the message is marked |
| `Reassembly.Mark` | Scholarli/Pods/BoringSSL/ssl/d1_both.cc:216-260 | after marking, the mask holds the old positions and the new range, and the message is reported complete exactly when that is everything |
| `Reassembly.MaskIsUnion` | Scholarli/Pods/BoringSSL/ssl/d1_both.cc:216-260 | for any sequence of ranges, in any order and overlapping, the mask is exactly their union |
| `Reassembly.MaskCovers` | Scholarli/Pods/BoringSSL/ssl/d1_both.cc:216-260 | no bit beyond the message length is ever set, and the mask is full if and only if the ranges cover the message |
| `Reassembly.Fragment.constructor` | Scholarli/Pods/BoringSSL/ssl/d1_both.cc:155-208 | a new message has received nothing, and has a mask unless it is empty |
| `Reassembly.Fragment.Store` | Scholarli/Pods/BoringSSL/ssl/d1_both.cc:410-418 | the bytes received so far are the old ones overwritten by the fragment; the mask is dropped exactly when none is missing; a complete message is left alone |
| `HandshakeWire.ParsePiece` | Scholarli/Pods/BoringSSL/ssl/d1_both.cc:479-493 | a parsed fragment leaves strictly less input, and its numbers fit the header fields |
| `HandshakeWire.ParseWritten` | Scholarli/Pods/BoringSSL/ssl/d1_both.cc:479-549 | parsing inverts writing of a fragment, whatever follows it |
| `HandshakeWire.PieceBytes` | Scholarli/Pods/BoringSSL/ssl/d1_both.cc:523-549 | the twelve header bytes by position, the most significant byte of each number first |
| `HandshakeWire.ParsedBytes` | Scholarli/Pods/BoringSSL/ssl/d1_both.cc:479-493 | on any bytes: when a fragment is parsed, and what each byte of the header counts for |
| `DtlsFlight.ParseWholeMessage` | Scholarli/Pods/BoringSSL/ssl/d1_both.cc:523-549 | the message that the sender stores parses back to itself as one fragment, so the checks made on sending pass |
| `DtlsReceiving.AcceptPiece` | Scholarli/Pods/BoringSSL/ssl/d1_both.cc:366-418 | one fragment keeps the ring in order: every slot holds a message of its own residue inside the window, with no byte outside it |
| `DtlsReceiver.Receiver.GetIncoming` | Scholarli/Pods/BoringSSL/ssl/d1_both.cc:274-303 | the slot found or created belongs to the fragment's number (the assertion never fails); null exactly for a number outside the window or a contradicting type or length, and then nothing changes |
| `DtlsReceiver.Receiver.Accept` | Scholarli/Pods/BoringSSL/ssl/d1_both.cc:366-418 | the in-place step on the ring equals the specification, including which fragments are fatal, ignored or stored; the number exactly seven ahead is fatal |
| `DtlsReceiver.Receiver.ReadPieces` | Scholarli/Pods/BoringSSL/ssl/d1_both.cc:366-422 | the loop over the fragments of a record equals the specification on the whole payload |
| `DtlsReceiver.Receiver.ReadMessage` | Scholarli/Pods/BoringSSL/ssl/d1_both.cc:305-422 | dispatch by record type: application data, ChangeCipherSpec, other records, handshake fragments |
| `DtlsReceiver.Receiver.GetMessage` | Scholarli/Pods/BoringSSL/ssl/d1_both.cc:424-440 | a message is handed out exactly when the current slot is complete, and it is the assembled one |
| `DtlsReceiver.Receiver.NextMessage` | Scholarli/Pods/BoringSSL/ssl/d1_both.cc:442-455 | the current slot is freed and the window moves by one |
| `DtlsReceiver.Receiver.ReadChangeCipherSpec` | Scholarli/Pods/BoringSSL/ssl/d1_both.cc:496-507 | a ChangeCipherSpec that was read is used up once |
| `DtlsReceiver.Receiver.SetReadState` | Scholarli/Pods/BoringSSL/ssl/dtls_method.cc:85-100 | keys change only when nothing but the current message is buffered and no ChangeCipherSpec is unread |
| `DtlsFlight.Advance` | Scholarli/Pods/BoringSSL/ssl/d1_both.cc:644-734 | a record moves the position of the flight strictly forward, and only if it is the next contiguous fragment, sealed in the epoch in which its message was added |
| `DtlsFlight.AdvanceJoin` | Scholarli/Pods/BoringSSL/ssl/d1_both.cc:782-822 | a flight resumed where it stopped is as if it had not stopped |
| `DtlsFlight.PassCarries` | Scholarli/Pods/BoringSSL/ssl/d1_both.cc:644-780 | the records of a pass carry each earlier message whole, the current one up to the offset and nothing of later ones |
| `DtlsFlight.FullPassCarriesAll` | Scholarli/Pods/BoringSSL/ssl/d1_both.cc:644-822 | one full pass carries every message of the flight exactly, without gap or overlap |
| `DtlsFlight.PassCovers` | Scholarli/Pods/BoringSSL/ssl/d1_both.cc:644-822 | a pass has a record for every position before the one it has reached, and for every message behind it, even an empty one |
| `DtlsSender.Sender.SealRecord` | Scholarli/Pods/BoringSSL/ssl/dtls_record.cc:287-344 | a sealed record fits the output and has the next number of its epoch; exactly which seals fail, use up a number or run over is counted, and no epoch and number is on two records before the first failure, nor later until a number has run over |
| `DtlsSender.SealTallied` | Scholarli/Pods/BoringSSL/ssl/dtls_record.cc:287-344 | a successful seal keeps numbers distinct and the counts in order: running over takes a failed seal and at least 2^48 updates |
| `DtlsSender.SealPastTheLast` | Scholarli/Pods/BoringSSL/ssl/dtls_record.cc:326-328 | the update past the last number fails the seal, and the next record then repeats the first number of the epoch |
| `DtlsSender.Sender.SealNextMessage` | Scholarli/Pods/BoringSSL/ssl/d1_both.cc:644-734 | what is sealed is the next contiguous part of the current message, in the message's own epoch, which may be the previous one, and within the space given; no progress exactly when the space is below header, one byte and overhead; a part that does not finish the message leaves no room for more; an error is a failed seal or keys that are gone |
| `DtlsSender.Sender.SealNextPacket` | Scholarli/Pods/BoringSSL/ssl/d1_both.cc:736-780 | a packet fits the MTU, strictly advances the position by the records sealed, and holds as much as goes in; without a failed seal it fails only if something of the flight cannot be sent at this MTU |
| `DtlsSender.Sender.SendPacket` | Scholarli/Pods/BoringSSL/ssl/d1_both.cc:792-810 | a refused packet restores the position, so that what the transport took stays gapless |
| `DtlsSender.Sender.SendFlight` | Scholarli/Pods/BoringSSL/ssl/d1_both.cc:782-822 | it terminates; what the transport took is a gapless run from the starting position, drawn in order from the records sealed in this call, and reaches the end on success; it is blocked exactly when the transport refuses, and fails only by a failed seal, by an MTU too small for some message or by keys that are gone |
| `DtlsSender.DrawnKeepsOrder` | Scholarli/Pods/BoringSSL/ssl/d1_both.cc:782-822 | the records that the transport took have increasing numbers within each epoch, so that no number is sent twice |
| `DtlsSender.Sender.Flush` | Scholarli/Pods/BoringSSL/ssl/d1_both.cc:824-829 | the flight is marked complete and written from the current position |
| `DtlsSender.Sender.Retransmit` | Scholarli/Pods/BoringSSL/ssl/d1_both.cc:831-840 | a retransmission that succeeds carries every message of the flight whole, whatever was sent before |
| `DtlsSender.Sender.AddMessage` | Scholarli/Pods/BoringSSL/ssl/d1_both.cc:555-598 | the message gets the next number in the flight, after the old flight is dropped if it was complete; failure changes no history |
| `DtlsSender.Sender.SetWriteState` | Scholarli/Pods/BoringSSL/ssl/dtls_method.cc:102-112 | the epoch grows, the old number is kept for retransmission, and numbers stay unique |
| `DtlsDelivery.AcceptKeepsFaithful` | Scholarli/Pods/BoringSSL/ssl/d1_both.cc:305-422 | fragments of sent messages leave only bytes of the message with that number in the ring |
| `DtlsDelivery.CurrentIsSent` | Scholarli/Pods/BoringSSL/ssl/d1_both.cc:424-440 | a complete current message is byte for byte the sender's message with that number |
| `DtlsDelivery.FatalExactly` | Scholarli/Pods/BoringSSL/ssl/d1_both.cc:366-404 | a fragment of a real message is fatal if and only if its message is too long, or is not the current one in epoch 1, or is exactly seven ahead; further ahead it is ignored |
| `DtlsDelivery.SevenAheadIsFatal` | Scholarli/Pods/BoringSSL/ssl/d1_both.cc:394-404 | the input that shows it: with nothing received yet, message 6 is stored, message 7 is fatal and message 8 is ignored |
| `DtlsDelivery.AnyFragment` | Scholarli/Pods/BoringSSL/ssl/d1_both.cc:366-418 | any fragment, whoever made it: when it is fatal, when ignored, and what it stores; a message keeps its first type and length, and a complete one never changes |
| `DtlsDelivery.FragmentsInTurn` | Scholarli/Pods/BoringSSL/ssl/d1_both.cc:366-422 | the fragments of a record take effect one after another, up to a fatal or malformed one |
| `DtlsDelivery.OtherRecords` | Scholarli/Pods/BoringSSL/ssl/d1_both.cc:305-364 | when records without fragments are accepted, and that they touch no message |
| `DtlsDelivery.NothingOutlivesKeys` | Scholarli/Pods/BoringSSL/ssl/dtls_method.cc:85-100 | after a change of keys nothing is buffered but the message being handled, and when keys do not change nothing else does |
| `DtlsDelivery.AcceptBuffers` | Scholarli/Pods/BoringSSL/ssl/d1_both.cc:366-418 | a fragment that is not fatal adds its positions to its own message and leaves what is buffered of all others |
| `DtlsDelivery.CoveredMessageCompletes` | Scholarli/Pods/BoringSSL/ssl/d1_both.cc:366-440 | a message in the window is assembled, and the current one handed out, as soon as fragments covering it have arrived, in any order and with any overlaps, among any other fragments that are not fatal |
| `DtlsDelivery.FullPassHandsOut` | Scholarli/Pods/BoringSSL/ssl/d1_both.cc:424-455 | when the fragments of one full pass over a flight have come out of the record layer, in any order and any number of times, the receiver hands out the flight's messages that it waits for, in order |
| `DtlsDelivery.OpenedPassHandsOut` | Scholarli/Pods/BoringSSL/ssl/dtls_record.cc:218-228 | when only the records of the receiver's epoch are opened, the receiver hands out those messages it waits for that the flight has in that epoch |
| `DtlsEndpoint.Endpoint.Arrive` | Scholarli/Pods/BoringSSL/ssl/dtls_record.cc:218-252 | a record reaches the handshake layer exactly when it is of the read epoch, was not accepted before, and is less than 64 below the largest number accepted; a dropped record changes nothing |
| `DtlsEndpoint.Endpoint.ChangeKeys` | Scholarli/Pods/BoringSSL/ssl/dtls_method.cc:85-100 | epoch, window and keys change together, or not at all |
| `DtlsEndpoint.LaterIsNew` | Scholarli/Pods/BoringSSL/ssl/dtls_record.cc:137-175 | records sealed later than all that the window has heard of have larger numbers than any of it, so that the window drops none of them |
| `DtlsEndpoint.RetransmitAndRead` | Scholarli/Pods/BoringSSL/ssl/d1_both.cc:831-840 | a retransmission that the transport takes in full, and whose records arrive, makes the receiver hand out the messages it waits for in its epoch; records of other epochs are dropped |
| `DtlsEndpoint.ReadLastFlight` | Scholarli/Pods/BoringSSL/ssl/d1_both.cc:496-507 | the last flight, with a ChangeCipherSpec and a message in the new epoch, is handed out whole by two retransmissions with the change of keys between them |
| `DtlsEndpoint.MeetLastFlight` | Scholarli/Pods/BoringSSL/ssl/d1_both.cc:831-840 | the smallest last flight from the start of both sides: the hypotheses can be met, and both messages come over |
| `DtlsRun.Run` | Scholarli/Pods/BoringSSL/ssl/d1_both.cc:274-840 | over every run with loss, repetition, reordering, retransmission at any MTU and key changes on both sides, the messages handed out are the sender's, in order and once each; no epoch and number is on two records sealed before the first failed seal, nor on any two as long as records and steps together are fewer than 2^48 |
| `ReplayWindow.ToU64` | Scholarli/Pods/BoringSSL/ssl/dtls_record.cc:128-136 | the loop gives the big-endian value |
| `ReplayWindow.BigEndianInjective` | Scholarli/Pods/BoringSSL/ssl/dtls_record.cc:128-136 | different sequence bytes have different values |
| `ReplayWindow.SequenceBytesValue` | Scholarli/Pods/BoringSSL/ssl/dtls_record.cc:319-321 | the eight header bytes of an epoch and a sequence number have the value that orders records by epoch and then by number |
| `ReplayWindow.Window.ShouldDiscard` | Scholarli/Pods/BoringSSL/ssl/dtls_record.cc:138-150 | a number is dropped if and only if it was recorded before or is 64 or more below the maximum |
| `ReplayWindow.Window.Record` | Scholarli/Pods/BoringSSL/ssl/dtls_record.cc:152-175 | the window refines the set of all recorded numbers, which grows by exactly this one |
| `ReplayWindow.Reader.OpenRecord` | Scholarli/Pods/BoringSSL/ssl/dtls_record.cc:218-265 | the exact verdict on a record; only an accepted one changes the window |
| `ReplayWindow.Reader.ChangeEpoch` | Scholarli/Pods/BoringSSL/ssl/dtls_method.cc:85-100 | a new epoch starts with an empty window and keeps accepted pairs distinct |
| `ReplayWindow.ReadAll` | Scholarli/Pods/BoringSSL/ssl/dtls_record.cc:177-265 | whatever arrives and however often keys change, no epoch and number is accepted twice |
| `NanopbPrimitives.VarintRoundTrip` | Scholarli/Pods/nanopb/pb_encode.c:494-514 | a number that fits the byte budget is read back from its varint, with the rest of the input untouched |
| `NanopbPrimitives.SkipVarintExact` | Scholarli/Pods/nanopb/pb_decode.c:231-240 | skipping passes over exactly one encoded varint |
| `NanopbPrimitives.TenBytesSuffice` | Scholarli/Pods/nanopb/pb_encode.c:494-514 | a 64-bit value fits the ten-byte local buffer |
| `NanopbPrimitives.TagRoundTrip` | Scholarli/Pods/nanopb/pb_decode.c:251-275 | tag and wire type are read back |
| `NanopbPrimitives.PrefixedRoundTrip` | Scholarli/Pods/nanopb/pb_decode.c:322-350 | a length-delimited string is read back and the substream ends exactly after it |
| `NanopbPrimitives.VarintValueRoundTrip` | Scholarli/Pods/nanopb/pb_decode.c:1165-1200 | signed integers of every size survive the cast to 64 bits, the cast to 32 bits and the range check |
| `NanopbPrimitives.UVarintValueRoundTrip` | Scholarli/Pods/nanopb/pb_decode.c:1202-1224 | unsigned integers of every size survive |
| `NanopbPrimitives.SVarintValueRoundTrip` | Scholarli/Pods/nanopb/pb_decode.c:1226-1248 | zig-zag integers of every size survive |
| `NanopbPrimitives.LittleEndianRoundTrip` | Scholarli/Pods/nanopb/pb_decode.c:1132-1163 | fixed-size numbers survive |
| `NanopbWire.LittleEndianByte` | Scholarli/Pods/nanopb/pb_encode.c:527-551 | byte `i` of a fixed-size number is its bits from `8 * i` on |
| `NanopbWire.FromLittleEndianByte` | Scholarli/Pods/nanopb/pb_decode.c:1132-1163 | the bytes read count for powers of 256 in the same order |
| `NanopbWire.VarintByte` | Scholarli/Pods/nanopb/pb_encode.c:494-514 | byte `i` of a varint has the next seven bits, the top bit is set on all but the last, and no byte is wasted |
| `NanopbWire.ReadVarintExactly` | Scholarli/Pods/nanopb/pb_decode.c:173-229 | what is read as a varint from any bytes, and when that fails |
| `NanopbWire.ZigZagIs` | Scholarli/Pods/nanopb/pb_encode.c:516-525 | a 64-bit number is mapped to `2 * i` or `-2 * i - 1` |
| `NanopbWire.VarintExactly` | Scholarli/Pods/nanopb/pb_decode.c:1165-1200 | a signed field takes a varint if and only if the number is in its range, and holds exactly that number |
| `NanopbWire.UVarintExactly` | Scholarli/Pods/nanopb/pb_decode.c:1202-1224 | the same for unsigned fields |
| `NanopbWire.SVarintExactly` | Scholarli/Pods/nanopb/pb_decode.c:1118-1248 | the same for zig-zag fields |
| `NanopbWire.FieldStartsWithTag` | Scholarli/Pods/nanopb/pb_encode.c:553-590 | whatever is written for a field starts with eight times its tag and the wire type 0, 1, 2 or 5 of its kind, 2 for a packed array |
| `NanopbWire.FieldsInOrder` | Scholarli/Pods/nanopb/pb_encode.c:451-473 | fields are written one after another in the order of the descriptor |
| `NanopbWire.MessageWritable` | Scholarli/Pods/nanopb/pb_encode.c:116-473 | the encoder fails if and only if, at some level, an integer has an unknown size, a byte array does not fit or an array is too long |
| `NanopbTypes.DefaultsShaped` | Scholarli/Pods/nanopb/pb_decode.c:763-846 | initialising a message gives every field a value of its type, at every level |
| `NanopbDecode.DecodeValue` | Scholarli/Pods/nanopb/pb_decode.c:1165-1379 | decoding a value consumes at least one byte and yields a value of the field's type |
| `NanopbDecode.DecodeField` | Scholarli/Pods/nanopb/pb_decode.c:356-429 | decoding a field consumes at least one byte and keeps the message well typed |
| `NanopbSound.OnlyThatField` | Scholarli/Pods/nanopb/pb_decode.c:356-429 | decoding a field changes that field, clears the other members of its union, and nothing else; arrays are appended to |
| `NanopbSound.RawExactly` | Scholarli/Pods/nanopb/pb_decode.c:1262-1379 | on any length and any bytes, when a byte array or a string is taken and what it then holds |
| `NanopbDecode.DecodeFields` | Scholarli/Pods/nanopb/pb_decode.c:852-953 | on every input the decoder terminates, and gives a well-typed message when it succeeds |
| `NanopbSound.DecodedHolds` | Scholarli/Pods/nanopb/pb_decode.c:852-967 | on every byte string, a message that is accepted fits its structure at every level: arrays within their bounds, at most one member of each union, numbers, strings and byte arrays in range |
| `NanopbSound.DecodedCanBeEncoded` | Scholarli/Pods/nanopb/pb_decode.c:955-967 | what was decoded from any bytes can be encoded |
| `NanopbSound.RequiredWasRead` | Scholarli/Pods/nanopb/pb_decode.c:908-953 | success on any bytes means that the tag of every required field stands in them |
| `NanopbSound.MissingFieldRefused` | Scholarli/Pods/nanopb/pb_decode.c:937-950 | bytes without the tag of a required field are refused |
| `NanopbSound.BrokenTag` | Scholarli/Pods/nanopb/pb_decode.c:251-275 | a tag that breaks off at the end of the input ends the message, and one that is too long is an error |
| `NanopbSound.UnknownTagSkipped` | Scholarli/Pods/nanopb/pb_decode.c:877-906 | a field that the descriptor lacks is skipped by its wire type, or is an error |
| `NanopbRoundTrip.SkipValue` | Scholarli/Pods/nanopb/pb_decode.c:277-287 | skipping by wire type advances exactly past any encoded value |
| `NanopbRoundTrip.ValueRoundTrip` | Scholarli/Pods/nanopb/pb_encode.c:652-776 | every value in the class, submessages included, is decoded to itself with absent optional fields at their defaults |
| `NanopbRoundTrip.PackedRoundTrip` | Scholarli/Pods/nanopb/pb_decode.c:374-402 | a packed array is decoded to its items |
| `NanopbRoundTrip.KnownField` | Scholarli/Pods/nanopb/pb_decode.c:908-916 | what was written for a field, under any rule, brings exactly that field of the reader to its value |
| `NanopbRoundTrip.UnknownField` | Scholarli/Pods/nanopb/pb_decode.c:877-906 | what was written for a field that the reader lacks changes nothing |
| `NanopbRoundTrip.Projection` | Scholarli/Pods/nanopb/pb_decode.c:852-967 | schema projection: decoding with any subset of the top-level fields succeeds, consumes everything and gives the message restricted to them |
| `NanopbRoundTrip.MessageAccepted` | Scholarli/Pods/nanopb/pb_encode.c:451-473 | the encoder accepts every message of the class |
| `NanopbRoundTrip.RoundTrip` | Scholarli/Pods/nanopb/pb_encode.c:116-473 | decoding inverts encoding for every descriptor and message of the class, arbitrarily nested, with absent optional fields at their defaults |
| `NanopbRoundTrip.ZeroEndsMessage` | Scholarli/Pods/nanopb/pb_decode.c:251-275 | a zero after a message ends it, and what follows is left unread |
| `NanopbRoundTrip.EncodesSame` | Scholarli/Pods/nanopb/pb_encode.c:271-349 | the values of absent optional fields do not show in the encoding |
| `NanopbRoundTrip.Reencode` | Scholarli/Pods/nanopb/pb_encode.c:451-473 | a decoded message encodes to the bytes it came from |
| `NanopbRoundTrip.StringRoundTrip` | Scholarli/Pods/nanopb/pb_decode.c:1299-1332 | what is encoded of any string, and what decoding it gives: the same string if and only if it has no NUL and is shorter than its array, the part up to a NUL, or an error if the array is filled |
| `NanopbRoundTrip.FullStringRefused` | Scholarli/Pods/nanopb/pb_decode.c:1299-1332 | a string that fills its array is encoded whole, and decoding that fails |
| `NanopbWriter.OStream.Write` | Scholarli/Pods/nanopb/pb_encode.c:62-109 | a write succeeds exactly when there is room (always when sizing); nothing outside the stream's part of the buffer changes |
| `NanopbWriter.VarintBytes` | Scholarli/Pods/nanopb/pb_encode.c:494-514 | the loop that sets and clears top bits gives the varint |
| `NanopbWriter.StringLength` | Scholarli/Pods/nanopb/pb_encode.c:739-763 | the loop finds the part up to the first NUL or the array size |
| `NanopbWriter.WriteValue` | Scholarli/Pods/nanopb/pb_encode.c:652-776 | each field encoder writes its specified bytes, or fails exactly when there are none or no room |
| `NanopbWriter.WriteSubmessage` | Scholarli/Pods/nanopb/pb_encode.c:600-648 | the sizing pass and the writing pass agree: "submsg size changed" cannot happen |
| `NanopbWriter.WritePacked` | Scholarli/Pods/nanopb/pb_encode.c:129-170 | a packed array is preceded by its exact length, counted or from a sizing pass |
| `NanopbWriter.WriteArray` | Scholarli/Pods/nanopb/pb_encode.c:116-201 | empty, too long, packed and unpacked arrays |
| `NanopbWriter.WriteSlot` | Scholarli/Pods/nanopb/pb_encode.c:271-349 | required, optional, repeated and oneof fields |
| `NanopbWriter.EncodeMessage` | Scholarli/Pods/nanopb/pb_encode.c:451-473 | on a sizing stream or a buffer, the message is written exactly, or fails exactly when it has no encoding or there is no room; nothing past `max_size` is written |
| `NanopbWriter.EncodedSize` | Scholarli/Pods/nanopb/pb_encode.c:480-489 | the size computed is the length of the encoding |
| `NanopbWriter.EncodeExactly` | Scholarli/Pods/nanopb/pb_encode.c:480-489 | a buffer of the size computed always suffices |
| `NanopbFields.FieldIter.Next` | Scholarli/Pods/nanopb/pb_common.c:20-76 | the iterator wraps after the last field and counts required fields |
| `NanopbFields.FieldIter.Find` | Scholarli/Pods/nanopb/pb_common.c:78-95 | the wrap-around search finds a field with the tag if and only if there is one |
| `NanopbFields.FieldIter.CountRequired` | Scholarli/Pods/nanopb/pb_decode.c:920-936 | seeking to the end gives the number of required fields |
| `NanopbFields.TracksRequired` | Scholarli/Pods/nanopb/pb_decode.c:908-913 | setting the bit of a required field records that field and no other |
| `NanopbFields.CheckRequired` | Scholarli/Pods/nanopb/pb_decode.c:937-950 | the comparison of whole and partial words holds if and only if every required field was met |
| `NanopbReader.DecodeVarint` | Scholarli/Pods/nanopb/pb_decode.c:173-229 | the shifting loops give the number cut to 32 or 64 bits, and leave the same input on success and failure |
| `NanopbReader.SkipField` | Scholarli/Pods/nanopb/pb_decode.c:231-287 | skipping refines the specification and never leaves the stream |
| `NanopbReader.DecodeTag` | Scholarli/Pods/nanopb/pb_decode.c:251-275 | tag, end of message or error, as specified |
| `NanopbReader.OpenSubstream` | Scholarli/Pods/nanopb/pb_decode.c:322-335 | the substream is strictly shorter than its parent, and the two together keep the end |
| `NanopbReader.CloseSubstream` | Scholarli/Pods/nanopb/pb_decode.c:337-350 | closing puts the parent exactly after the substream |
| `NanopbReader.ReadPacked` | Scholarli/Pods/nanopb/pb_decode.c:374-402 | the packed loop refines the specification, with overflow an error |
| `NanopbReader.ReadField` | Scholarli/Pods/nanopb/pb_decode.c:356-429 | all field rules refine the specification |
| `NanopbReader.DecodeNoInit` | Scholarli/Pods/nanopb/pb_decode.c:852-953 | the main loop refines the specification on every input; cursor and bytes left keep their sum on success and never exceed it |
| `NanopbReader.DecodeMessage` | Scholarli/Pods/nanopb/pb_decode.c:955-967 | decoding refines the specification on every input and never reads past the end |
| `TlsScript.ScriptExists` | Scholarli/Pods/BoringSSL/ssl/handshake_client.cc:567-1775 | for every agreed configuration there is one script of the handshake, with Finished messages over its own prefixes |
| `TlsScript.EachMessageOnce` | Scholarli/Pods/BoringSSL/ssl/handshake.cc:213-220 | in a script no side sends two messages of the same kind, so that a transcript that is a part of it has each message once |
| `TlsClientSide.HelloStep` | Scholarli/Pods/BoringSSL/ssl/handshake_client.cc:567-760 | reading the ServerHello keeps the client on the script, resumed or not |
| `TlsClientSide.StatusStep` | Scholarli/Pods/BoringSSL/ssl/handshake_client.cc:822-870 | an announced CertificateStatus is taken or passed over |
| `TlsClientSide.KeyExchangeStep` | Scholarli/Pods/BoringSSL/ssl/handshake_client.cc:892-1076 | a ServerKeyExchange is taken exactly when the script has one |
| `TlsClientSide.RequestStep` | Scholarli/Pods/BoringSSL/ssl/handshake_client.cc:1078-1148 | a CertificateRequest is taken exactly when the script has one |
| `TlsClientSide.SendFinishedStep` | Scholarli/Pods/BoringSSL/ssl/handshake_client.cc:1466-1520 | ChangeCipherSpec, NextProto, Channel ID and a Finished over the transcript so far are added, or nothing when the Channel ID key is not there yet |
| `TlsClientSide.TicketStep` | Scholarli/Pods/BoringSSL/ssl/handshake_client.cc:1550-1631 | the ticket is read exactly when it was announced, and ChangeCipherSpec is awaited next |
| `TlsClientSide.ReadFinishedStep` | Scholarli/Pods/BoringSSL/ssl/handshake_client.cc:1642-1656 | the server's Finished matches the client's transcript |
| `TlsClientSide.ClientStep` | Scholarli/Pods/BoringSSL/ssl/handshake_client.cc:1693-1775 | every state function keeps the client in order and moves it along the script: it sends, takes or waits for exactly what comes there, fails no check, and only goes to later states |
| `TlsServerSide.ParametersStep` | Scholarli/Pods/BoringSSL/ssl/handshake_server.cc:568-680 | resumption and the certificate request are settled, and the ClientHello is hashed once, however often the lookup is put off |
| `TlsServerSide.SendHelloStep` | Scholarli/Pods/BoringSSL/ssl/handshake_server.cc:682-740 | the ServerHello tells the client what was agreed |
| `TlsServerSide.SendCertificateStep` | Scholarli/Pods/BoringSSL/ssl/handshake_server.cc:742-828 | certificate and status are added together, and parameters are prepared exactly when a ServerKeyExchange follows |
| `TlsServerSide.SendKeyExchangeStep` | Scholarli/Pods/BoringSSL/ssl/handshake_server.cc:830-901 | the ServerKeyExchange is added once, however often the private key is put off |
| `TlsServerSide.ClientCertificateStep` | Scholarli/Pods/BoringSSL/ssl/handshake_server.cc:938-1029 | the client certificate is read exactly when it was requested |
| `TlsServerSide.KeyExchangeStep` | Scholarli/Pods/BoringSSL/ssl/handshake_server.cc:1047-1262 | the ClientKeyExchange is taken once, however often decryption is put off |
| `TlsServerSide.SendFinishedStep` | Scholarli/Pods/BoringSSL/ssl/handshake_server.cc:1460-1506 | ticket, ChangeCipherSpec and a Finished over the transcript so far are added |
| `TlsServerSide.ServerStep` | Scholarli/Pods/BoringSSL/ssl/handshake_server.cc:1537-1619 | every state function keeps the server in order and moves it along the script |
| `TlsJoint.ClientMoveKeeps` | Scholarli/Pods/BoringSSL/ssl/handshake.cc:423-545 | every move of the client, with any interleaving, keeps the joint invariant; in particular no check fails |
| `TlsJoint.ServerMoveKeeps` | Scholarli/Pods/BoringSSL/ssl/handshake.cc:423-545 | the same for the server |
| `TlsJoint.Progress` | Scholarli/Pods/BoringSSL/ssl/handshake.cc:423-545 | no deadlock: while one side is not done, one side can move |
| `TlsRun.ClientMoveDecreases` | Scholarli/Pods/BoringSSL/ssl/handshake.cc:423-545 | every move brings the end of the handshake nearer |
| `TlsRun.FinishedCovers` | Scholarli/Pods/BoringSSL/ssl/handshake.cc:372-421 | each Finished that arrives covers the transcript of the side that checks it |
| `TlsRun.EveryRun` | Scholarli/Pods/BoringSSL/ssl/handshake_client.cc:567-1775 | in every reachable state of a compatible pair neither side has failed; each side's transcript is the beginning of the script of the agreed configuration, with each message once, and all of it when the side is done; one transcript is a prefix of the other, Finished messages match, and when neither can move both are done and agree on resumption, cipher and transcript; run length is bounded |
| `TlsRun.NoStateTwice` | Scholarli/Pods/BoringSSL/ssl/handshake_server.cc:432-1619 | no state is entered twice, except for staying in it during retries |
| `TlsRun.DoneAgrees` | Scholarli/Pods/BoringSSL/ssl/handshake_client.cc:1658-1691 | when both are done, both transcripts are the whole script, each message once, they agree, and all records have been delivered |
| `TlsRun.Pair.Turn` | Scholarli/Pods/BoringSSL/ssl/handshake.cc:423-545 | one scheduled move keeps the invariant and makes progress, or both sides are done |
| `TlsRun.Pair.Handshake` | Scholarli/Pods/BoringSSL/ssl/handshake.cc:423-545 | under any schedule and any finite delays the handshake terminates with both sides done and in agreement |
| `TlsPeer.DoKeeps` | Scholarli/Pods/BoringSSL/ssl/handshake_client.cc:1693-1775 | whatever the peer sends and however checks come out, the security log keeps its order |
| `TlsPeer.DoneIsSafe` | Scholarli/Pods/BoringSSL/ssl/handshake_client.cc:772-1691 | a client that is done has matched the server's Finished; in a full handshake with a certificate cipher the chain was verified before ClientKeyExchange was added, and a ServerKeyExchange was read if and only if the key exchange is ephemeral, with its signature verified before that too |
| `TlsClientSafety.DoneIsLegal` | Scholarli/Pods/BoringSSL/ssl/handshake_client.cc:567-1691 | against any peer, the transcript of a client that is done is a legal handshake by a grammar that knows no states: each message at its place, a cipher that was allowed, a session that was offered, and a Finished of each side that covers exactly what came before it |
| `TlsClientSafety.DoneWasNotRefused` | Scholarli/Pods/BoringSSL/ssl/handshake_client.cc:567-1691 | wherever the client asked for a verdict on a message, a signature, a certificate or a key, it was not refused |
| `TlsClientSafety.DoneWasChecked` | Scholarli/Pods/BoringSSL/ssl/handshake_client.cc:772-1380 | over every sequence of inputs: all of that, and in a full handshake with a certificate cipher the chain was found good, and an ephemeral ServerKeyExchange was taken with a signature that was not refused, before ClientKeyExchange was added |
| `TlsServerSafety.DoneIsLegal` | Scholarli/Pods/BoringSSL/ssl/handshake_server.cc:432-1535 | against any peer, the transcript of a server that is done is a legal handshake, with a Finished of each side that covers exactly what came before it |
| `TlsServerSafety.DoneWasChecked` | Scholarli/Pods/BoringSSL/ssl/handshake_server.cc:938-1401 | over every sequence of inputs: a done server was refused nothing; a client certificate had its chain found good and was followed by a CertificateVerify; one that was requested and needed is there |
| `TlsClientSafety.Connection.RunHandshake` | Scholarli/Pods/BoringSSL/ssl/handshake.cc:423-545 | the driver loop returns success only in a finished state, with a legal transcript, the server's Finished matched, no refusal, and the checks made before ClientKeyExchange |
| `WritePath.Connection.Seal` | Scholarli/Pods/BoringSSL/ssl/s3_both.cc:149-165 | every successful seal is logged in order, with its plaintext by type, and every failure is counted |
| `WritePath.Connection.FlushBuffer` | Scholarli/Pods/BoringSSL/ssl/ssl_buffer.cc:245-258 | partial writes keep wire, buffer and flight equal to all sealed records; success empties the buffer, and only a refusal of the transport stops it |
| `WritePath.Connection.AddRecord` | Scholarli/Pods/BoringSSL/ssl/s3_both.cc:135-165 | the record goes to the end of the flight |
| `WritePath.Connection.AddMessage` | Scholarli/Pods/BoringSSL/ssl/s3_both.cc:184-205 | a message is cut into records that are each as long as allowed, and is sealed whole, in order |
| `WritePath.Connection.FlushFlight` | Scholarli/Pods/BoringSSL/ssl/s3_both.cc:231-275 | the write buffer goes before the flight; on success the wire is everything sealed |
| `WritePath.Connection.InitBuffer` | Scholarli/Pods/BoringSSL/ssl/ssl_buffer.cc:39-76 | it succeeds exactly when no buffer is held and the capacity is legal, and otherwise changes nothing |
| `WritePath.Connection.Stage` | Scholarli/Pods/BoringSSL/ssl/s3_pkt.cc:279-330 | the unsent flight and the new record become the write buffer, in that order |
| `WritePath.Connection.WritePending` | Scholarli/Pods/BoringSSL/ssl/s3_pkt.cc:260-276 | only a retry that matches is reported as written, and only when the buffer is empty |
| `WritePath.Connection.DoWrite` | Scholarli/Pods/BoringSSL/ssl/s3_pkt.cc:279-346 | application data is sealed at most once: a positive result reports it, otherwise it is unsealed or remembered; a seal has failed exactly when one was due and the call returned an error with no write pending |
| `WritePath.Connection.WriteAppData` | Scholarli/Pods/BoringSSL/ssl/s3_pkt.cc:192-258 | a write with the same buffer continues where it stopped, and a shorter one is refused; the data is cut into records of the greatest length allowed; if no write is pending and there is room, it fails only by a failed seal or by a refusal of the transport with the record remembered |
| `WritePath.WriteWithRetries` | Scholarli/Pods/BoringSSL/ssl/s3_pkt.cc:192-346 | over any retries, with flushes, alerts and handshake messages between, each byte is sealed exactly once and in order, in records within the limit; unless a call failed with no write pending, the wire, the buffer and the flight are all that has been sealed |
| `Refcount.LockedCount.Increment` | Scholarli/Pods/BoringSSL/crypto/refcount_lock.c:29-35 | the locked increment is the atomic specification |
| `Refcount.LockedCount.DecrementAndTestZero` | Scholarli/Pods/BoringSSL/crypto/refcount_lock.c:37-51 | the locked decrement is the atomic specification, abort included |
| `Refcount.RunRefinesLocked` | Scholarli/Pods/BoringSSL/crypto/refcount_c11.c:37-65 | for any number of threads, interleaving and spurious failures, the count is that of the logged calls run one by one on the locked version with the same results, and each call is logged once |
| `Refcount.RunsAlone` | Scholarli/Pods/BoringSSL/crypto/refcount_c11.c:37-65 | a thread that is not disturbed completes its call in three steps, with the effect and the result of the locked version |
| `Refcount.AtomicPointInside` | Scholarli/Pods/BoringSSL/crypto/refcount_c11.c:37-65 | cut at any moment, the log has before the cut the calls that have returned or are about to, and after it those still trying or not started: the atomic point of a call lies between its start and its return |
| `Refcount.SaturationIsFinal` | Scholarli/Pods/BoringSSL/crypto/refcount_c11.c:37-65 | a saturated count never changes again |
| `Refcount.Conservation` | Scholarli/Pods/BoringSSL/crypto/refcount_c11.c:37-65 | below saturation the count is the initial one plus increments minus decrements |
| `ChooseCipher.Choose` | Scholarli/Pods/BoringSSL/ssl/handshake_server.cc:384-424 | the loop with its running group minimum gives the best cipher |
| `ChooseCipher.ChooseCipher` | Scholarli/Pods/BoringSSL/ssl/handshake_server.cc:357-424 | with server preference the acceptable cipher of smallest client index from the first group that has one; otherwise the first acceptable cipher in client order |
| `ChooseCipher.NullMeansNoneAcceptable` | Scholarli/Pods/BoringSSL/ssl/internal.h:1775-1808 | with well-formed groups, null means that nothing is acceptable |
| `ChooseCipher.FirstAcceptable` | Scholarli/Pods/BoringSSL/ssl/handshake_server.cc:357-424 | without groups the choice is the first acceptable cipher |
| `ConstantTime.IsZeroIsTest` | Scholarli/Pods/BoringSSL/crypto/internal.h:274-294 | the zero mask is all ones exactly for zero, for every word |
| `ConstantTime.EqIsTest` | Scholarli/Pods/BoringSSL/crypto/internal.h:296-318 | the equality mask is all ones exactly for equal words |
| `ConstantTime.SelectIsBranch` | Scholarli/Pods/BoringSSL/crypto/internal.h:320-334 | masked selection is a branch |
| `Premaster.CheckPadding` | Scholarli/Pods/BoringSSL/ssl/handshake_server.cc:1147-1161 | the mask is all ones exactly for legal padding and version |
| `Premaster.SelectPremaster` | Scholarli/Pods/BoringSSL/ssl/handshake_server.cc:1139-1168 | the decrypted tail is taken exactly for legal padding and version, and the random secret is kept otherwise; a short buffer is refused |

## Left out

- DTLS: the header bytes in front of a reassembled body are constant fields, not memory; timers and MTU discovery; the message
  number and the epoch do not wrap.
- DtlsEndpoint.Endpoint.Arrive: a record that the peer sealed in the read epoch is opened by the read keys.
- DtlsSender.Sender.SealRecord: how ciphers work, and whether they succeed, is an arbitrary choice within their length bounds.
- Allocation failures and `size_t` overflow, everywhere.
- nanopb callback, pointer and extension fields, and proto3 singular fields without a `has_` flag.
- NanopbReader.DecodeNoInit: the destination structure is a value that is passed and returned, not memory updated in place, so
  aliasing and what a failed decode leaves behind are not captured; the bytes behind the terminator of a string are not kept.
- NanopbReader.DecodeVarint: the two varint loops are one method with a width, and adding stands for the bitwise or of disjoint
  bits.
- TLS 1.3, early data, False Start, renegotiation, SSL 3.0, V2ClientHello and HelloVerifyRequest.
- The `do_*` functions of the handshake are functions on a handshake record, not methods that update one; the drivers are methods.
- Extension contents, key derivation, certificates and signatures: outcomes are agreed parameters and verdicts. A Finished
  message stands for the transcript it covers, which idealises the keyed hash.
- TlsPeer.DoneIsSafe: here and in the two safety modules a flight leaves at once, because the peer may do anything anyway;
  `TlsJoint` sends record by record.
- WritePath.Connection.WriteAppData: early data writes.
- Reading application data, alerts received, session caches, and the app's own Swift code: easy members.
- Refcount: the sequentially consistent steps stand for the C11 memory order used.
