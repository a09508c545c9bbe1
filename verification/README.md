# Verified models of the vendored BoringSSL and nanopb cores

A Dafny 4.11 project that models the C and C++ cores vendored under `ios/Pods.orig` and proves what
they are for. `dafny verify dfyconfig.toml` checks all of it; nothing is assumed.

**DTLS handshake transport** (RFC 6347; `d1_both.cc`, `dtls_record.cc`, `dtls_method.cc`). The sender cuts
a flight into fragments within the MTU, packs datagrams, rewinds and resends, and numbers its records; the
receiver filters replays with a 64-bit window, reassembles fragments through a byte mask and a ring of
seven slots, and hands messages up in order. Classes `Bitmap`, `RecordReader`, `RecordWriter`, `HmFragment`,
`Receiver`, `Sender` and, owning a reader, a receiver and a sender, `DtlsState` update their fields and
buffers as the source does, and are proved against specifications over which the run-wide theorems are stated.
On top, `WholeStack` puts sealing, network, record layer and ring together.
Modules: `Bytes`, `Words`, `ReplayWindow`, `RecordLayer`, `RecordSealing`, `Fragments`, `Bitmask`,
`Reassembly`, `ReceiverRing`, `Sending`, `DtlsConnection`, `Transport`, `EndToEnd`, `FreshRecords`, `WholeStack`.

**TLS handshake machines up to version 1.2** (section 7.3 of RFC 5246, section 3.3 of RFC 5077;
`handshake_client.cc`, `handshake_server.cc`, `handshake.cc`). For each state a function says how its handler
may end; the handlers themselves, methods that assign the handshake's fields, are proved to do that. Safety
holds over every run with arbitrary input; what passes in any run is a handshake as the RFCs draw it, and
nothing else is hashed; the product of the two machines, with or without a cookie exchange first, never
fails, never waits for ever, and ends with equal transcripts. The server's cipher chooser is proved against
its lexicographic minimum.
Modules: `Handshake`, `ClientHandshake`, `ClientMachine`, `ServerHandshake`, `ServerMachine`,
`HandshakeFlow`, `HandshakeGrammar`, `ClientHistory`, `ServerHistory`, `HandshakeProduct`, `HandshakeRuns`,
`HandshakeCookie`, `CipherChoice`.

**nanopb** (`pb_encode.c`, `pb_decode.c`, `pb_common.c`). Descriptors and messages are values; encoder and
decoder are methods over stream objects, proved against the wire form and its reading, and these against
the protobuf wire format, stated apart from both. On top of them stand
the round trip with its exact condition, exact sizing, exactly what an unknown field does, and the exactness
of the required-field check, and exactly what a failed decode takes from the stream. The pointers that the
iterator makes of relative offsets reach the members of the C struct exactly when those lie in order.
Modules: `Varints`, `Streams`, `Messages`, `Decoding`, `Encoder`, `Decoder`, `FieldIter`, `FieldLayout`,
`RoundTrip`, `WireFormat`, `LongLengths`, `UnknownFields`, `Conservation`, `OverfullArrays`.

**Reference count** (`refcount_c11.c`, `refcount_lock.c`). The compare-and-swap loops as interleaved steps of
any number of threads, refining the version under a lock. Module: `Refcount`.

## Results that differ from what one might expect

- A fragment for number `handshake_read_seq + 7` is not ignored like those further ahead: it passes the filter
  and is then an error (`Reassembly.OutOfWindow`, `Transport.HonestFragmentFate`). It never gets a slot.
- The 16-bit epoch and message number and the 48-bit record number wrap. The uniqueness theorems hold up to
  the wrap, and `RecordLayer.ReplayAfterWrap`, `RecordSealing.ReuseAfterOverflow`,
  `RecordSealing.ReuseAfterEpochWrap` and `Transport.RedeliveryAfterWrap` show that they fail right after it.
- nanopb encodes messages that it cannot decode: those with a length of 2^32 or more
  (`LongLengths.RoundTripIsExact`), such as 2^29 packed 64-bit words (`LongLengths.LongArrayIsLost`).
- The 32-bit varint decoder reads what the 64-bit one reads if and only if the number is below 2^32
  (`Varints.Read32Agrees`). Larger numbers it refuses or cuts to 32 bits: `Varints.Read32IsExact` says which
  encodings it cuts, and `Varints.SixBytesLoseBits` is one of them. Beyond 37 bytes its bit position comes round
  (`Varints.Read32ComesRound`, `Varints.LateBitsAreLow`).
- Decoding keeps the sum of cursor and bytes left, also when it fails, with one exception: a packed array given
  up with bytes left over costs the stream its whole declared length (`Conservation.SumIsKept`,
  `OverfullArrays.OverfullArrayIsLost`).
- An unknown field is skipped anywhere in any message, with one exception: in a message type without fields,
  number zero matches the terminator and is refused (`UnknownFields.UnknownFieldIsIgnored`).
- The iterator's offsets have 32 bits and no sign: a member that lies before the one described before it puts
  64-bit pointers 2^32 too far from there on (`FieldLayout.PointersAt`).
- A compare-and-swap loop may abort later than the lock-based counter would (`Refcount.LateAbort`); the abort
  is one of that counter if and only if the count is still zero (`Refcount.AbortIsExact`), and threads that
  use only references they own never abort (`Refcount.LastReleaseIsUnique`).

## How to read the model

A run is a value of `Run<E>`, the events so far with the latest last; theorems over runs quantify over all of
them. Whatever cannot be seen from the source, such as AEAD results, signature checks, callbacks, BIO results
and MTUs, is an input of the event or a nondeterministic choice in the method. Ghost fields (`received`, `era`,
`slots`, `run`, `records`, `sent`, `net`, `log`, `last`, `answers`) only record what happened.

## Model

| member | source | states |
|---|---|---|
| `ReplayWindow.Bitmap.ShouldDiscard` | ios/Pods.orig/BoringSSL-GRPC/ssl/dtls_record.cc:140-150 | A number is refused if and only if it was recorded since the window was cleared, or lies 64 or more below a recorded one: the mask answers for the exact set of numbers. |
| `ReplayWindow.Bitmap.Record` | ios/Pods.orig/BoringSSL-GRPC/ssl/dtls_record.cc:155-175 | Recording adds exactly that number to the set the 64-bit mask and the maximum stand for, whether the window slides or not. |
| `ReplayWindow.Bitmap.Clear` | ios/Pods.orig/BoringSSL-GRPC/ssl/dtls_method.cc:81-95 | After a read cipher change the window stands for the empty set. |
| `ReplayWindow.SlideWindow` | ios/Pods.orig/BoringSSL-GRPC/ssl/dtls_record.cc:155-163 | Shifting the mask up to a larger maximum keeps its answer for every number still inside the window, and forgets all of it from 64 on. |
| `ReplayWindow.MarkWindow` | ios/Pods.orig/BoringSSL-GRPC/ssl/dtls_record.cc:165-174 | Setting one bit of the mask adds one number to the set and changes no other answer. |
| `ReplayWindow.ToU64BE` | ios/Pods.orig/BoringSSL-GRPC/ssl/dtls_record.cc:128-136 | Eight bytes are read as one big-endian number, which fits 64 bits. |
| `RecordLayer.ParseWireBytes` | ios/Pods.orig/BoringSSL-GRPC/ssl/dtls_record.cc:195-221 | Whatever follows it in the datagram, a written record header and body are parsed back as they were. |
| `RecordLayer.SequenceValue` | ios/Pods.orig/BoringSSL-GRPC/ssl/dtls_record.cc:225-226 | The eight sequence bytes are the epoch times 2^48 plus the record number, so joint values agree exactly when both parts do. |
| `RecordLayer.NoReplay` | ios/Pods.orig/BoringSSL-GRPC/ssl/dtls_record.cc:225-259 | Over every run of arrivals and cipher changes with fewer than 2^16 changes, no (epoch, number) is handed up twice. |
| `RecordLayer.AfterChanges` | ios/Pods.orig/BoringSSL-GRPC/ssl/dtls_method.cc:89-91 | Cipher changes advance the epoch count one each, empty the window and hand nothing up. |
| `RecordLayer.ReplayAfterWrap` | ios/Pods.orig/BoringSSL-GRPC/ssl/dtls_method.cc:89-91 | The bound is sharp: a run with 2^16 changes in which the same record is handed up twice. |
| `RecordLayer.RecordReader.OpenRecord` | ios/Pods.orig/BoringSSL-GRPC/ssl/dtls_record.cc:177-272 | The outcome for every datagram: discarded, too long, an alert or data, with the bytes consumed; it is handed up exactly when it parses, its version and epoch fit, the window does not refuse it and the AEAD accepts it, and only then is its number recorded. |
| `RecordLayer.RecordReader.VersionDecides` | ios/Pods.orig/BoringSSL-GRPC/ssl/dtls_record.cc:207-220 | A record that parses is looked at if and only if its version begins with 0xfe under the null cipher, or is the version of the cipher after a change. |
| `RecordLayer.AlertIsExact` | ios/Pods.orig/BoringSSL-GRPC/ssl/tls_record.cc:551-601 | An alert by its two bytes: 1, 0 closes, another warning is passed over four times in a row, anything else is an error under its own alert. |
| `RecordLayer.RecordReader.ProcessAlert` | ios/Pods.orig/BoringSSL-GRPC/ssl/tls_record.cc:551-601 | A close_notify closes for good, a fifth warning in a row is an error, and a record in between starts the count over. |
| `RecordLayer.RecordReader.ChangeCipher` | ios/Pods.orig/BoringSSL-GRPC/ssl/dtls_method.cc:81-95 | A read cipher change starts a new epoch with an empty window and a fixed record version. |
| `RecordSealing.NumbersAreUnique` | ios/Pods.orig/BoringSSL-GRPC/ssl/dtls_record.cc:294-351 | Over every run of seals in the current or the previous epoch and write cipher changes, no two successfully sealed records share an (epoch, number), up to the first counter overflow and while fewer than 2^16 changes were made. |
| `RecordSealing.RecordsAreUnique` | ios/Pods.orig/BoringSSL-GRPC/ssl/dtls_record.cc:297-336 | The records a writer sealed, as long as no counter overflowed and the epoch did not wrap, differ pairwise in the eight sequence bytes that are the AEAD nonce. |
| `RecordSealing.ReuseAfterOverflow` | ios/Pods.orig/BoringSSL-GRPC/ssl/dtls_record.cc:325-336 | The overflow condition is sharp: the run of 2^48 + 1 seals reuses a number. |
| `RecordSealing.ReuseAfterEpochWrap` | ios/Pods.orig/BoringSSL-GRPC/ssl/dtls_method.cc:97-107 | The bound on cipher changes is sharp: after 2^16 of them an (epoch, number) is used again without any overflow. |
| `RecordSealing.SequenceUpdate` | ios/Pods.orig/BoringSSL-GRPC/ssl/tls_record.cc:154-163 | The in-place carry loop adds one to the big-endian counter, fails exactly when it wraps, and touches no byte before the counter. |
| `RecordSealing.CounterAdds` | ios/Pods.orig/BoringSSL-GRPC/ssl/tls_record.cc:156-161 | Incrementing one byte and turning the 0xff bytes after it to zero adds one to the whole number. |
| `RecordSealing.SealedRecordParses` | ios/Pods.orig/BoringSSL-GRPC/ssl/dtls_record.cc:338-350 | A sealed record is read back by the receiver as it was written, and occupies the length the sender counted. |
| `RecordSealing.LogSeal` | ios/Pods.orig/BoringSSL-GRPC/ssl/dtls_record.cc:325-336 | A seal moves one counter, also when it fails after the AEAD, and only a success adds a record under the number it had. |
| `RecordSealing.SequenceNumber.Update` | ios/Pods.orig/BoringSSL-GRPC/ssl/dtls_record.cc:325-336 | The six counter bytes step to the next number and report the wrap to zero. |
| `RecordSealing.RecordWriter.SealRecord` | ios/Pods.orig/BoringSSL-GRPC/ssl/dtls_record.cc:294-351 | On success the record carries the plaintext, the next number of the epoch asked for and the version of the cipher, and was sealed under that epoch's key, within the room and the AEAD overhead; on failure no record is added, though the counter may have moved, and the AEAD or the number was to blame. |
| `RecordSealing.RecordWriter.NextSequence` | ios/Pods.orig/BoringSSL-GRPC/ssl/dtls_record.cc:297-312 | The sequence bytes are those of the current epoch, or of the one before it, with that epoch's own counter. |
| `RecordSealing.RecordWriter.CountRecord` | ios/Pods.orig/BoringSSL-GRPC/ssl/dtls_record.cc:325-340 | Only the counter of the epoch used is moved; a length over 16 bits is found after that. |
| `RecordSealing.RecordWriter.ChangeCipher` | ios/Pods.orig/BoringSSL-GRPC/ssl/dtls_method.cc:97-107 | The old counter and AEAD are kept for the previous epoch, the new epoch starts at zero, and nothing sealed is forgotten. |
| `Fragments.ParseFragment` | ios/Pods.orig/BoringSSL-GRPC/ssl/d1_both.cc:459-473 | A parsed fragment has exactly the body length its header says and leaves fewer bytes. |
| `Fragments.ParseWritten` | ios/Pods.orig/BoringSSL-GRPC/ssl/d1_both.cc:459-473 | Parsing inverts writing for every fragment and any bytes after it. |
| `Fragments.WriteParsed` | ios/Pods.orig/BoringSSL-GRPC/ssl/d1_both.cc:459-473 | Writing inverts parsing: every byte string that parses is the fragment written out, then the rest. |
| `Fragments.FinishMessage` | ios/Pods.orig/BoringSSL-GRPC/ssl/d1_both.cc:525-537 | Copying the fragment length over the total length, in place, turns what dtls1_init_message began into the message as one whole fragment. |
| `Fragments.FinishedIsWhole` | ios/Pods.orig/BoringSSL-GRPC/ssl/d1_both.cc:511-537 | A message begun with a zero total length and finished by the copy is the unfragmented serialization that section 4.2.6 of RFC 6347 hashes. |
| `Bitmask.BitRangeBits` | ios/Pods.orig/BoringSSL-GRPC/ssl/d1_both.cc:203-205 | The 32-bit shift expression has exactly the bits from start to end. |
| `Bitmask.MarkRange` | ios/Pods.orig/BoringSSL-GRPC/ssl/d1_both.cc:211-236 | After marking, a bit is set if and only if it was set or lies in the range, also when head and tail share a byte. |
| `Bitmask.MarkWide` | ios/Pods.orig/BoringSSL-GRPC/ssl/d1_both.cc:221-232 | The three parts, head, full bytes and tail, together mark exactly the range. |
| `Bitmask.RangeIsMarked` | ios/Pods.orig/BoringSSL-GRPC/ssl/d1_both.cc:211-232 | A range marked in all the bytes it touches is marked, and nothing else. |
| `Bitmask.MaskByteFull` | ios/Pods.orig/BoringSSL-GRPC/ssl/d1_both.cc:238-248 | Comparing a mask byte with bit_range(0, n) tests exactly that its n positions are all marked. |
| `Bitmask.IsComplete` | ios/Pods.orig/BoringSSL-GRPC/ssl/d1_both.cc:238-250 | The scan says complete if and only if every position of the body is marked. |
| `Reassembly.SlotNumber` | ios/Pods.orig/BoringSSL-GRPC/ssl/d1_both.cc:274-279 | An occupied slot found for a number in the window holds that very number: the source's assertion never fires. |
| `Reassembly.ReceiveKeepsRing` | ios/Pods.orig/BoringSSL-GRPC/ssl/d1_both.cc:317-402 | Whatever fragment arrives, every occupied slot i holds a message numbered in [handshake_read_seq, handshake_read_seq + 7) and congruent to i modulo 7. |
| `Reassembly.NextKeepsRing` | ios/Pods.orig/BoringSSL-GRPC/ssl/d1_both.cc:426-438 | Dropping the current message keeps the ring invariant; when the 16-bit number wraps the ring is empty. |
| `Reassembly.OutOfWindow` | ios/Pods.orig/BoringSSL-GRPC/ssl/d1_both.cc:380-385 | The exact fate by number: handshake_read_seq + 7 is an error, everything further off on either side is dropped, and none of them changes the ring. |
| `Reassembly.ChangeIsExact` | ios/Pods.orig/BoringSSL-GRPC/ssl/d1_both.cc:440-457 | The read cipher changes exactly when no ChangeCipherSpec is pending and no message is buffered but the current one, once that was got; so it changes when everything was handed up. |
| `Reassembly.CompleteStays` | ios/Pods.orig/BoringSSL-GRPC/ssl/d1_both.cc:393-402 | A complete message never changes until it is consumed. |
| `Reassembly.RingInvariant` | ios/Pods.orig/BoringSSL-GRPC/ssl/d1_both.cc:265-295 | The ring invariant holds in every reachable state of every run of records, gets, nexts and cipher changes. |
| `Reassembly.NoEpochMixing` | ios/Pods.orig/BoringSSL-GRPC/ssl/dtls_method.cc:81-95 | No message that is handed up holds bytes received under two read eras of the ring, in any run of the ring. |
| `ReceiverRing.HmFragment.constructor` | ios/Pods.orig/BoringSSL-GRPC/ssl/d1_both.cc:152-199 | A new message has its header rewritten as one fragment, nothing received, and a mask unless its body is empty. |
| `ReceiverRing.HmFragment.Absorb` | ios/Pods.orig/BoringSSL-GRPC/ssl/d1_both.cc:393-402 | The buffer gets the chunk and the mask its positions; buffer and mask go on representing exactly the bytes received. |
| `ReceiverRing.HmFragment.Mark` | ios/Pods.orig/BoringSSL-GRPC/ssl/d1_both.cc:211-251 | The mask is freed if and only if every byte of the body was received, and otherwise marks exactly the received positions. |
| `ReceiverRing.Receiver.CurrentMessageComplete` | ios/Pods.orig/BoringSSL-GRPC/ssl/d1_both.cc:255-259 | True exactly when the slot of the current number holds all its bytes. |
| `ReceiverRing.Receiver.AddMessage` | ios/Pods.orig/BoringSSL-GRPC/ssl/d1_both.cc:287-295 | A first fragment puts an empty message into the slot of its number and nowhere else. |
| `ReceiverRing.Receiver.GetIncomingMessage` | ios/Pods.orig/BoringSSL-GRPC/ssl/d1_both.cc:265-295 | Lookup in place agrees with its specification in result, alert and every slot. |
| `ReceiverRing.Receiver.StoreBody` | ios/Pods.orig/BoringSSL-GRPC/ssl/d1_both.cc:393-402 | Storing a chunk changes one slot and leaves the other messages as they are. |
| `ReceiverRing.Receiver.PlaceFragment` | ios/Pods.orig/BoringSSL-GRPC/ssl/d1_both.cc:386-402 | A fragment in the window is looked up, stored or refused as the specification says, with every other slot left alone. |
| `ReceiverRing.Receiver.OpenFragment` | ios/Pods.orig/BoringSSL-GRPC/ssl/d1_both.cc:366-402 | One fragment in place has exactly the outcome and the effect of the specification whose properties are proved over runs. |
| `ReceiverRing.Receiver.OpenFragments` | ios/Pods.orig/BoringSSL-GRPC/ssl/d1_both.cc:361-404 | A record of many fragments is taken up to its first bad one, which leaves the effect of those before it. |
| `ReceiverRing.Receiver.OpenHandshake` | ios/Pods.orig/BoringSSL-GRPC/ssl/d1_both.cc:297-406 | The exact outcome by content type: stray application data is dropped once encrypted, ChangeCipherSpec needs the null cipher and the one byte 1, a bad fragment fails with its alert, anything else but handshake fails. |
| `ReceiverRing.Receiver.OpenChangeCipherSpec` | ios/Pods.orig/BoringSSL-GRPC/ssl/d1_both.cc:475-490 | A ChangeCipherSpec is consumed exactly once, whether it was pending or arrives now; another record has the outcome it would have had. |
| `ReceiverRing.Receiver.GetMessage` | ios/Pods.orig/BoringSSL-GRPC/ssl/d1_both.cc:408-424 | The message handed up is the current complete one, with raw bytes equal to its single-fragment form. |
| `ReceiverRing.Receiver.NextMessage` | ios/Pods.orig/BoringSSL-GRPC/ssl/d1_both.cc:426-438 | The slot is freed and the number advances modulo 2^16. |
| `ReceiverRing.Receiver.HasUnprocessedHandshakeData` | ios/Pods.orig/BoringSSL-GRPC/ssl/d1_both.cc:440-457 | True exactly when a ChangeCipherSpec or any message besides the one last got is buffered. |
| `ReceiverRing.Receiver.SetReadState` | ios/Pods.orig/BoringSSL-GRPC/ssl/dtls_method.cc:81-95 | The read epoch advances if and only if no ChangeCipherSpec is pending and no message is buffered but the one last got. |
| `Sending.ParseWhole` | ios/Pods.orig/BoringSSL-GRPC/ssl/d1_both.cc:666-676 | Only a message that is one fragment covering itself is accepted for sending. |
| `Sending.ParseWholeMessage` | ios/Pods.orig/BoringSSL-GRPC/ssl/d1_both.cc:666-676 | Every finished message is accepted, and parses to itself. |
| `Sending.WalkTiles` | ios/Pods.orig/BoringSSL-GRPC/ssl/d1_both.cc:644-780 | The pieces between two cursors are disjoint and cover exactly the bytes between them. |
| `Sending.WalkSendsEmpty` | ios/Pods.orig/BoringSSL-GRPC/ssl/d1_both.cc:697-733 | A ChangeCipherSpec or an empty message goes out as exactly one piece. |
| `Sending.FlightTiled` | ios/Pods.orig/BoringSSL-GRPC/ssl/d1_both.cc:782-827 | In one complete sending every byte of every message is in exactly one fragment, and an empty body in exactly one empty fragment. |
| `Sending.WalkAdvances` | ios/Pods.orig/BoringSSL-GRPC/ssl/d1_both.cc:739-780 | Every piece moves the cursor forward lexicographically in (outgoing_written, outgoing_offset). |
| `Sending.QueuedIsSendable` | ios/Pods.orig/BoringSSL-GRPC/ssl/d1_both.cc:644-733 | What is queued for a finished message can be sent in its epoch and in the next, from any offset in its body, exactly when there is room for a fragment header and one byte; a ChangeCipherSpec, for one byte. |
| `Sending.ConveyPacket` | ios/Pods.orig/BoringSSL-GRPC/ssl/d1_both.cc:782-827 | Datagrams sent one after the other convey the concatenation of their pieces, each within the MTU. |
| `Sending.Sender.SealCcs` | ios/Pods.orig/BoringSSL-GRPC/ssl/d1_both.cc:681-695 | A ChangeCipherSpec is sealed whole as the byte 1 in the epoch it was queued under, or fails, for lack of room exactly when there is none. |
| `Sending.Sender.SealBody` | ios/Pods.orig/BoringSSL-GRPC/ssl/d1_both.cc:697-733 | The sealed record carries the next stretch of the body under a header with its offset and length, in the epoch the message was queued under; a partial one is not empty and fills the room. |
| `Sending.Sender.SealPiece` | ios/Pods.orig/BoringSSL-GRPC/ssl/d1_both.cc:656-733 | The piece sealed is the one at the cursor, as its record carries it. |
| `Sending.Sender.SealNextMessage` | ios/Pods.orig/BoringSSL-GRPC/ssl/d1_both.cc:644-734 | A record goes out under the epoch and the key its entry was queued under, those of the current epoch or of the one before; an entry of any other epoch is an error, and so is one that does not parse. Success or partial moves the cursor by the piece that was sealed; no progress means exactly that the room is too small; any other error is one of the AEAD or the record number. |
| `Sending.Sender.AddNext` | ios/Pods.orig/BoringSSL-GRPC/ssl/d1_both.cc:747-766 | One more record in a datagram: it is what the entry at the cursor is due, the room shrinks by its length, and the cursor moves behind it; otherwise nothing moves. |
| `Sending.Sender.FillPacket` | ios/Pods.orig/BoringSSL-GRPC/ssl/d1_both.cc:739-780 | The loop over the entries ends at the end of the flight, behind a message sent in part, without room for the next entry, or at a failure, and says which; the datagram carries the pieces between the two cursors in order. |
| `Sending.Sender.SealNextPacket` | ios/Pods.orig/BoringSSL-GRPC/ssl/d1_both.cc:739-780 | A packet is not empty, fits, and carries exactly the pieces from the old cursor to the new, each in the epoch of its entry; it fails only where the entry cannot be sent, its first record has no room, or the AEAD or the record number failed. |
| `Sending.Sender.SendPacket` | ios/Pods.orig/BoringSSL-GRPC/ssl/d1_both.cc:803-821 | A refused write restores the cursor; a successful one shortens the rest of the flight, which is why the loop ends. |
| `Sending.Sender.SendFlight` | ios/Pods.orig/BoringSSL-GRPC/ssl/d1_both.cc:782-827 | Returns 1 only when the whole flight was sealed and written; any other answer is that of the network, or of a failure to seal at the entry reached, or a shutdown, on which nothing is sent. The datagrams written carry exactly the pieces from the old cursor to where they reach, within the MTU. |
| `Sending.Sender.ClearOutgoing` | ios/Pods.orig/BoringSSL-GRPC/ssl/d1_both.cc:500-509 | The flight is empty and the cursor at its start. |
| `Sending.Sender.AddOutgoing` | ios/Pods.orig/BoringSSL-GRPC/ssl/d1_both.cc:555-594 | A flushed flight is dropped first; a message or ChangeCipherSpec is added under the current write epoch exactly when there is room; only messages are hashed and numbered. |
| `Sending.Sender.FlushFlight` | ios/Pods.orig/BoringSSL-GRPC/ssl/d1_both.cc:829-834 | Marks the flight complete and sends the rest of it. |
| `Sending.Sender.RetransmitOutgoingMessages` | ios/Pods.orig/BoringSSL-GRPC/ssl/d1_both.cc:836-845 | A retransmission walks the whole flight again from its start, whatever was left over and whatever the MTU is now. |
| `Sending.Sender.MarkReply` | ios/Pods.orig/BoringSSL-GRPC/ssl/d1_both.cc:433-437 | A flight that was flushed has its reply once a message is dropped; another flight does not. |
| `Sending.Sender.OnHandshakeComplete` | ios/Pods.orig/BoringSSL-GRPC/ssl/dtls_method.cc:71-79 | The final flight is dropped only when the peer's reply was seen. |
| `DtlsConnection.ErasAgree` | ios/Pods.orig/BoringSSL-GRPC/ssl/dtls_method.cc:81-95 | Record layer and reassembly ring are in the same read epoch in every reachable state, and each sees a run of its own. |
| `DtlsConnection.BytesAreBrought` | ios/Pods.orig/BoringSSL-GRPC/ssl/dtls_record.cc:225-272 | Every byte held in the ring was brought by an accepted record whose epoch is the byte's. |
| `DtlsConnection.EpochsNeverMix` | ios/Pods.orig/BoringSSL-GRPC/ssl/dtls_record.cc:225-234 | Over every run of arrivals, gets and read cipher changes: all bytes of a message handed up were brought by accepted records of one and the same epoch. |
| `DtlsConnection.DeliveredIsBrought` | ios/Pods.orig/BoringSSL-GRPC/ssl/d1_both.cc:408-424 | A message handed up is complete, and its bytes were brought. |
| `DtlsConnection.ReadPartAgrees` | ios/Pods.orig/BoringSSL-GRPC/ssl/dtls_record.cc:225-259 | What the record layer does in a run of the connection is a run of the record layer. |
| `DtlsConnection.DtlsState.OpenHandshake` | ios/Pods.orig/BoringSSL-GRPC/ssl/ssl_lib.cc:229-241 | A datagram goes through the record layer and, if accepted, into the ring: together they take exactly one step of the run the theorem is about, and the caller is told exactly what it came to and how many bytes it took. An error ends reading for good. |
| `DtlsConnection.DtlsState.OpenChangeCipherSpec` | ios/Pods.orig/BoringSSL-GRPC/ssl/d1_both.cc:475-490 | The pending ChangeCipherSpec is consumed, or else the one the datagram may bring; it succeeds exactly when there is one, and otherwise tells what the datagram came to. |
| `DtlsConnection.DtlsState.GetMessage` | ios/Pods.orig/BoringSSL-GRPC/ssl/d1_both.cc:408-424 | The current message is handed up when it is complete, as one fragment, and is one step of the run. |
| `DtlsConnection.DtlsState.NextMessage` | ios/Pods.orig/BoringSSL-GRPC/ssl/d1_both.cc:426-438 | The slot is freed, the number advances, and a flight that was flushed is marked as replied to. |
| `DtlsConnection.DtlsState.SetReadState` | ios/Pods.orig/BoringSSL-GRPC/ssl/dtls_method.cc:81-95 | The epoch, the window and the ring change together, exactly when nothing of the current epoch is left over; otherwise nothing changes. |
| `DtlsConnection.DtlsState.OnHandshakeComplete` | ios/Pods.orig/BoringSSL-GRPC/ssl/dtls_method.cc:71-79 | The final flight is dropped if and only if a message was taken after it was flushed. |
| `Transport.HonestFragmentFate` | ios/Pods.orig/BoringSSL-GRPC/ssl/d1_both.cc:317-402 | A fragment the sender could have cut is refused if and only if its message is too long, it is not for the current message in the first encrypted epoch, or it is for handshake_read_seq + 7. |
| `Transport.CompleteIsWhole` | ios/Pods.orig/BoringSSL-GRPC/ssl/d1_both.cc:408-424 | A complete message that agrees with what was sent is the sender's unfragmented serialization, header included. |
| `Transport.StepIsFaithful` | ios/Pods.orig/BoringSSL-GRPC/ssl/d1_both.cc:297-438 | One step of the receiver on honest fragments keeps: in order, at most once, byte for byte. |
| `Transport.InOrderDelivery` | ios/Pods.orig/BoringSSL-GRPC/ssl/d1_both.cc:297-438 | Over every run in which the network loses, reorders, duplicates, splits and overlaps honest fragments, messages are handed up in sequence order, each at most once, with exactly the sender's bytes. |
| `Transport.RedeliveryAfterWrap` | ios/Pods.orig/BoringSSL-GRPC/ssl/d1_both.cc:426-438 | The bound of 2^16 messages is sharp: a run of honest records that hands a message up twice. |
| `Transport.TakenIsKept` | ios/Pods.orig/BoringSSL-GRPC/ssl/d1_both.cc:380-402 | No processed fragment is lost: its bytes are in the ring, or its message was handed up. |
| `Transport.CoveredIsDeliverable` | ios/Pods.orig/BoringSSL-GRPC/ssl/d1_both.cc:393-424 | Once the processed fragments cover the next message it can be handed up. |
| `Transport.CoveredAreDelivered` | ios/Pods.orig/BoringSSL-GRPC/ssl/d1_both.cc:408-438 | When the next n messages are covered, taking n messages hands all of them up in order. |
| `EndToEnd.FlightGrows` | ios/Pods.orig/BoringSSL-GRPC/ssl/d1_both.cc:555-594 | Queueing messages and ChangeCipherSpecs keeps the flight in step with the message numbers. |
| `EndToEnd.QueuedIsMessage` | ios/Pods.orig/BoringSSL-GRPC/ssl/d1_both.cc:511-537 | What is queued for a finished message is that message, whole. |
| `EndToEnd.RecordIsHonest` | ios/Pods.orig/BoringSSL-GRPC/ssl/d1_both.cc:697-733 | Every handshake record of a flight carries one fragment the receiver counts as honest. |
| `EndToEnd.EntryIsCovered` | ios/Pods.orig/BoringSSL-GRPC/ssl/d1_both.cc:644-827 | When all records of a complete sending arrive, each message of the flight is covered. |
| `EndToEnd.FlightIsDelivered` | ios/Pods.orig/BoringSSL-GRPC/ssl/d1_both.cc:782-845 | End to end: once every record of one complete sending was processed, in any order and mixed with other honest fragments, the receiver hands up every message of the flight, in order and byte for byte. |
| `FreshRecords.ArrivalIsExact` | ios/Pods.orig/BoringSSL-GRPC/ssl/dtls_record.cc:225-259 | Exactly which arrivals are accepted, wherever in a run of lost, reordered, repeated and forged records: those of the current epoch not accepted before that no accepted record of their epoch has left 64 or more behind. |
| `FreshRecords.FirstArrivalIsAccepted` | ios/Pods.orig/BoringSSL-GRPC/ssl/dtls_record.cc:138-175 | The first arrival of a sealed record, retransmissions included, is accepted if and only if its epoch is the current one and it is not left 64 or more behind. |
| `FreshRecords.TakenOnce` | ios/Pods.orig/BoringSSL-GRPC/ssl/dtls_record.cc:138-175 | No sealed record is accepted twice. |
| `FreshRecords.WindowIsTaken` | ios/Pods.orig/BoringSSL-GRPC/ssl/dtls_record.cc:155-175 | The window holds exactly the records of the current epoch that were accepted. |
| `FreshRecords.SealedFit` | ios/Pods.orig/BoringSSL-GRPC/ssl/dtls_record.cc:297-336 | What a writer numbers fits two and six bytes, up to the first overflow. |
| `WholeStack.CarriedAsSealed` | ios/Pods.orig/BoringSSL-GRPC/ssl/dtls_record.cc:297-312 | A record arrives under the epoch and the number its eight bytes say. |
| `WholeStack.BytesAreCarried` | ios/Pods.orig/BoringSSL-GRPC/ssl/dtls_record.cc:177-272 | The bytes of a sealed record, whatever follows them in the datagram, are to a connection whose version fits the arrival of that record, which is what the runs of the stack are made of. |
| `WholeStack.AcceptedIsFresh` | ios/Pods.orig/BoringSSL-GRPC/ssl/dtls_record.cc:177-272 | Which of the writer's records the connection accepts: exactly the fresh ones. |
| `WholeStack.HandedUpInOrder` | ios/Pods.orig/BoringSSL-GRPC/ssl/d1_both.cc:297-438 | Sealing, network, record layer and ring together: whatever is lost, reordered, repeated or forged, messages are handed up in order, each at most once, byte for byte. |
| `WholeStack.WelcomeIsTaken` | ios/Pods.orig/BoringSSL-GRPC/ssl/d1_both.cc:366-402 | A fresh record whose fragment can be used is let through, and the ring processes the fragment. |
| `WholeStack.FlightGetsThrough` | ios/Pods.orig/BoringSSL-GRPC/ssl/d1_both.cc:297-438 | When each handshake record of one complete sending arrives fresh and usable at some moment, in any order and among anything else, every message of the flight can be handed up, in order and byte for byte. |
| `Refcount.LockedCounter.Increment` | ios/Pods.orig/BoringSSL-GRPC/crypto/refcount_lock.c:29-35 | Counts up, except at the maximum. |
| `Refcount.LockedCounter.DecrementAndTestZero` | ios/Pods.orig/BoringSSL-GRPC/crypto/refcount_lock.c:37-51 | Aborts at zero, stays at the maximum, and otherwise counts down and says whether zero was reached. |
| `Refcount.MaxStaysStuck` | ios/Pods.orig/BoringSSL-GRPC/crypto/refcount_c11.c:37-65 | No step of any thread moves a saturated count, and a loop that read the maximum still sees it. |
| `Refcount.SaturatedForEver` | ios/Pods.orig/BoringSSL-GRPC/crypto/refcount_c11.c:37-65 | Once saturated, a count stays at the maximum in every continuation of every interleaving. |
| `Refcount.TurnIsLocked` | ios/Pods.orig/BoringSSL-GRPC/crypto/refcount_c11.c:41-46 | The turn of a loop that answers does to the count, and answers, what the locked operation would at that moment; one that goes round again changes nothing. |
| `Refcount.LoopsRefineLock` | ios/Pods.orig/BoringSSL-GRPC/crypto/refcount_c11.c:37-65 | Every interleaving with any spurious failures is a run of the lock-based counter with the same answers, as long as the process was not aborted. |
| `Refcount.AbortIsExact` | ios/Pods.orig/BoringSSL-GRPC/crypto/refcount_c11.c:53-56 | The abort, the first one that happens, is also one of the lock-based counter if and only if the count is still zero at that moment. |
| `Refcount.LateAbort` | ios/Pods.orig/BoringSSL-GRPC/crypto/refcount_c11.c:49-65 | A witness that it need not be: a loop reads zero, another thread counts up to one, and the first one aborts. |
| `Refcount.DisciplinedRefinesLock` | ios/Pods.orig/BoringSSL-GRPC/crypto/refcount_c11.c:37-65 | From an object's creation on, every run of threads that use only references they own is a run of the lock-based counter with the same answers. |
| `Refcount.DoomIsLockedAbort` | ios/Pods.orig/BoringSSL-GRPC/crypto/refcount_c11.c:53-56 | A loop reads zero only where the counter under the lock would abort at once. |
| `Refcount.StaysBalanced` | ios/Pods.orig/BoringSSL-GRPC/crypto/refcount_c11.c:37-65 | While threads use only references they own, an unsaturated count equals the references owned, after every step. |
| `Refcount.LastReleaseIsUnique` | ios/Pods.orig/BoringSSL-GRPC/crypto/refcount_c11.c:49-65 | From an object's creation on: nothing aborts, exactly one release, the last, reaches zero, and a saturated object is never released. |
| `CipherChoice.ParseClientList` | ios/Pods.orig/BoringSSL-GRPC/ssl/handshake_server.cc:293-321 | The loop yields the known suites of the list in order, and fails exactly on an odd length. |
| `CipherChoice.ClientListOdd` | ios/Pods.orig/BoringSSL-GRPC/ssl/handshake_server.cc:293-321 | The list is malformed if and only if its length is odd. |
| `CipherChoice.ClientListJoins` | ios/Pods.orig/BoringSSL-GRPC/ssl/handshake_server.cc:293-321 | A list is read two bytes at a time, in order, and suites that are not known are passed over. |
| `CipherChoice.Find` | ios/Pods.orig/BoringSSL-GRPC/crypto/stack/stack.c:226-270 | Finds the first position of a cipher if and only if it is in the list. |
| `CipherChoice.LookAt` | ios/Pods.orig/BoringSSL-GRPC/ssl/handshake_server.cc:386-417 | One turn of the loop makes the choice exactly at an eligible entry outside or at the end of a group; otherwise the best of the group is kept up to date. |
| `CipherChoice.ChooseFrom` | ios/Pods.orig/BoringSSL-GRPC/ssl/handshake_server.cc:386-423 | One pass finds the eligible cipher with the least (group, position in the other list), and none exactly when no eligible cipher has a closed group. |
| `CipherChoice.ChooseCipher` | ios/Pods.orig/BoringSSL-GRPC/ssl/handshake_server.cc:357-424 | Under server preference the choice is lexicographically least in (server group, client position), otherwise the first eligible one of the client; it is a cipher that both list and that fits version, key exchange and signature, and none if and only if there is no such cipher. |
| `CipherChoice.BestIsUnique` | ios/Pods.orig/BoringSSL-GRPC/ssl/handshake_server.cc:386-423 | The best choice is one cipher, however often it is listed. |
| `CipherChoice.EligibleIsUsable` | ios/Pods.orig/BoringSSL-GRPC/ssl/handshake_server.cc:393-400 | An entry the chooser looks at is eligible exactly for a cipher both sides list whose versions include the negotiated one and for which the server has a key exchange and a signature. |
| `CipherChoice.BestIsFirst` | ios/Pods.orig/BoringSSL-GRPC/ssl/handshake_server.cc:371-380 | Without groups the least entry is the first eligible one. |
| `CipherChoice.GroupEnds` | ios/Pods.orig/BoringSSL-GRPC/ssl/handshake_server.cc:398-423 | Reaching the end of a group with something eligible in it settles the choice for the whole list. |
| `Varints.VarintRoundTrip` | ios/Pods.orig/nanopb/pb_encode.c:574-594 | Decoding inverts encoding on every 64-bit number, whatever follows. |
| `Varints.GroupsRoundTrip` | ios/Pods.orig/nanopb/pb_decode.c:250-270 | Reading the groups of seven bits gives the number back from any position in a varint of at most ten bytes. |
| `Varints.Read32IsExact` | ios/Pods.orig/nanopb/pb_decode.c:182-242 | Exactly what the 32-bit decoder makes of an encoding of up to 37 bytes: up to five bytes it reads the number or refuses one of 2^32 and more; of a longer one it reads the low 32 bits if every byte from the sixth on has no bits, or is all ones under a set bit 31, and otherwise refuses it. |
| `Varints.Read32ComesRound` | ios/Pods.orig/nanopb/pb_decode.c:206-236 | Exactly what it makes of a longer encoding: the 8-bit bit position comes round to bit 3 after 37 bytes, and if the bytes before pass the check the rest is read there. |
| `Varints.LateBitsAreLow` | ios/Pods.orig/nanopb/pb_decode.c:206-236 | A family of witnesses: 37 bytes of padding and a byte b, a number the 64-bit decoder refuses, is read as 8b. |
| `Varints.PaddedIsRead` | ios/Pods.orig/nanopb/pb_decode.c:206-236 | Padding never matters: a number below 2^32 is read from an encoding of any length. |
| `Varints.TailIsExact` | ios/Pods.orig/nanopb/pb_decode.c:208-231 | The sign check over the bytes from the sixth on: they leave the number as it is or make the decoder fail. |
| `Varints.GroupsAreRead` | ios/Pods.orig/nanopb/pb_decode.c:250-270 | The 64-bit decoder reads the number the groups make up exactly when there are at most ten. |
| `Varints.Read32Agrees` | ios/Pods.orig/nanopb/pb_decode.c:182-242 | Of everything the 64-bit decoder reads, the 32-bit decoder reads the same if and only if the number is below 2^32; otherwise it refuses it or reads its low 32 bits. |
| `Varints.TakenFits` | ios/Pods.orig/nanopb/pb_decode.c:216-231 | A long encoding that the 32-bit decoder takes fits 64 bits, and stands for a number below 2^32 or for one it cuts. |
| `Varints.Varint32RoundTrip` | ios/Pods.orig/nanopb/pb_decode.c:182-242 | The 32-bit decoder inverts the encoder on every number below 2^32. |
| `Varints.Read32RefusesLong` | ios/Pods.orig/nanopb/pb_decode.c:182-242 | No canonical encoding of a number from 2^32 up to 2^63 is taken for a smaller one. |
| `Varints.Read32Negative` | ios/Pods.orig/nanopb/pb_decode.c:208-231 | The ten-byte encoding of a negative 32-bit number is read as its low 32 bits. |
| `Varints.SixBytesLoseBits` | ios/Pods.orig/nanopb/pb_decode.c:208-231 | A witness: a padded six-byte encoding of 7 * 2^32 is read as zero, because bits of the fifth byte are dropped when it is not the last. |
| `Varints.ZigZagRoundTrip` | ios/Pods.orig/nanopb/pb_encode.c:596-605 | Zigzag and its inverse undo each other in both directions, and the code of v is 2v or -2v - 1. |
| `Varints.LittleRoundTrip` | ios/Pods.orig/nanopb/pb_encode.c:607-632 | Little-endian words are read back as they were written. |
| `Streams.EmitBoth` | ios/Pods.orig/nanopb/pb_encode.c:101-119 | Writing two byte strings one after the other succeeds exactly when writing both at once does, with the same stream after it. |
| `Streams.OStream.Write` | ios/Pods.orig/nanopb/pb_encode.c:101-119 | Writes all bytes or refuses: the stream after it has the bytes at its cursor and counts them; a sizing stream only counts. |
| `Streams.OStream.EncodeVarint` | ios/Pods.orig/nanopb/pb_encode.c:574-594 | Emits exactly the canonical varint. |
| `Streams.FillVarint` | ios/Pods.orig/nanopb/pb_encode.c:582-593 | The loop over seven bits at a time, with the last top bit cleared, leaves the canonical varint in the buffer. |
| `Streams.IStream.ReadByte` | ios/Pods.orig/nanopb/pb_decode.c:136-152 | Takes one byte, with cursor plus bytes_left unchanged. |
| `Streams.IStream.Read` | ios/Pods.orig/nanopb/pb_decode.c:100-132 | Takes exactly count bytes or fails, with cursor plus bytes_left unchanged. |
| `Streams.IStream.DecodeVarint` | ios/Pods.orig/nanopb/pb_decode.c:250-270 | The shift-and-or loop reads the number the groups make up, modulo 2^64, in at most ten bytes. |
| `Streams.IStream.DecodeVarint32` | ios/Pods.orig/nanopb/pb_decode.c:182-242 | The loop agrees with the 32-bit decoder's specification, and says end of file exactly when there was nothing to read. |
| `RoundTrip.MessageRoundTrip` | ios/Pods.orig/nanopb/pb_decode.c:901-1063 | Every message within bounds of a well-formed descriptor can be encoded, and decoding restores it up to the contents of absent fields, as long as no length in it reaches 2^32. |
| `LongLengths.RoundTripIsExact` | ios/Pods.orig/nanopb/pb_decode.c:182-242 | That condition is exact: the message comes back if and only if every length in its wire form, at any depth, is below 2^32; otherwise the decoder fails. |
| `LongLengths.LongArrayIsLost` | ios/Pods.orig/nanopb/pb_encode.c:136-190 | A family of messages that are encoded and cannot be decoded: n packed 64-bit words, n within its 32 bits, are lost if and only if n is at least 2^29. |
| `LongLengths.MessageRefused` | ios/Pods.orig/nanopb/pb_decode.c:367-380 | A length of 2^32 or more anywhere in the message makes decoding fail, not return something else. |
| `LongLengths.FieldRefused` | ios/Pods.orig/nanopb/pb_decode.c:401-475 | A field with such a length makes decoding fail from the state in which the fields before it were taken over. |
| `RoundTrip.ItemRoundTrip` | ios/Pods.orig/nanopb/pb_decode.c:1289-1508 | Each kind of value, nested messages included, is read back from what was written for it. |
| `RoundTrip.PlainRoundTrip` | ios/Pods.orig/nanopb/pb_encode.c:734-868 | Numbers of every size, bytes and terminated strings are read back as they were. |
| `RoundTrip.FieldRoundTrip` | ios/Pods.orig/nanopb/pb_decode.c:919-997 | Decoding what was written for one field takes it over and goes on with the rest, at any point of the message. |
| `RoundTrip.ArrayRoundTrip` | ios/Pods.orig/nanopb/pb_decode.c:413-449 | Packed and unpacked arrays come back entry by entry. |
| `RoundTrip.PackedRoundTrip` | ios/Pods.orig/nanopb/pb_decode.c:424-434 | The entries of a packed array are read back in order behind those already there. |
| `RoundTrip.AfterOneMore` | ios/Pods.orig/nanopb/pb_decode.c:812-882 | Taking over one more field changes its own slot only, members of a oneof included, and an absent field changes nothing. |
| `RoundTrip.ZeroIsDefault` | ios/Pods.orig/nanopb/pb_encode.c:215-303 | A submessage that the proto3 check takes for unset is the default one, so leaving it out loses nothing. |
| `RoundTrip.NormalEncodesSame` | ios/Pods.orig/nanopb/pb_encode.c:494-516 | The message that comes back is written as the same bytes. |
| `RoundTrip.WhichComesBack` | ios/Pods.orig/nanopb/pb_decode.c:451-464 | A oneof comes back with the same member present. |
| `RoundTrip.AllAreSeen` | ios/Pods.orig/nanopb/pb_decode.c:988-997 | The fields of an encoded message show every required field among the first 64. |
| `RoundTrip.TagRoundTrip` | ios/Pods.orig/nanopb/pb_decode.c:293-314 | Field number and wire type are read back from a tag. |
| `RoundTrip.StringRoundTrip` | ios/Pods.orig/nanopb/pb_decode.c:367-380 | A length-delimited string below 2^32 bytes is cut off the front as it was written. |
| `RoundTrip.WellFormedIsDistinct` | ios/Pods.orig/nanopb/pb_common.c:78-95 | A well-formed descriptor has no duplicate or zero tag at any depth, which the search needs. |
| `WireFormat.GroupsOf` | ios/Pods.orig/nanopb/pb_decode.c:244-267 | A varint of the wire format, bytes with the top bit set and then one without, is read as the number its groups of seven bits make up. |
| `WireFormat.VarintIsWhole` | ios/Pods.orig/nanopb/pb_encode.c:594-613 | What is written for a number is one whole varint that stands for that number. |
| `WireFormat.PayloadIsSkipped` | ios/Pods.orig/nanopb/pb_decode.c:316-326 | Skipping takes exactly one payload of the wire format: a varint for type 0, eight bytes for 1, a length and so many bytes for 2, four bytes for 5. |
| `WireFormat.SkippedIsPayload` | ios/Pods.orig/nanopb/pb_decode.c:316-326 | Whatever is skipped is one such payload, if its length is one the 32-bit decoder does not cut. |
| `WireFormat.WordIsClamped` | ios/Pods.orig/nanopb/pb_decode.c:1289-1352 | Of the 64 bits of a number each kind reads what they stand for, if the field holds it; a signed field of at most four bytes reads the low 32. |
| `WireFormat.NumberIsRead` | ios/Pods.orig/nanopb/pb_decode.c:1289-1389 | Any payload of a number, canonical or not, is read as what it stands for if the field holds that, a negative 32-bit number in five bytes included; a varint of more than ten bytes is refused. |
| `WireFormat.BlobIsRead` | ios/Pods.orig/nanopb/pb_decode.c:1391-1508 | Delimited bytes are read as they are if the field has room, for a string also for its terminator; fixed-length bytes must have their length or none. |
| `WireFormat.NumberIsWritten` | ios/Pods.orig/nanopb/pb_encode.c:734-822 | What is written for a number is one payload that stands for it: zigzag, 64-bit sign-extended, or lowest byte first, by its kind. |
| `WireFormat.ItemIsWritten` | ios/Pods.orig/nanopb/pb_encode.c:734-868 | What is written for any value is one payload that holds it: a number, or delimited bytes, or a delimited message. |
| `WireFormat.WireTypeIsRight` | ios/Pods.orig/nanopb/pb_encode.c:641-672 | The wire type in the tag is the one of the payload that is written for the kind. |
| `WireFormat.TagIsWritten` | ios/Pods.orig/nanopb/pb_encode.c:635-639 | A tag is one varint of eight times the number plus the wire type. |
| `WireFormat.UnsetIsNothing` | ios/Pods.orig/nanopb/pb_encode.c:215-303 | A message is empty on the wire if and only if every field of it is unset. |
| `WireFormat.FieldIsWritten` | ios/Pods.orig/nanopb/pb_encode.c:307-392 | What is written for a field is what the wire format has for it: nothing when it is absent, one field for a value, one for each entry of an unpacked array, or one with all entries of a packed one. |
| `WireFormat.MessageIsWritten` | ios/Pods.orig/nanopb/pb_encode.c:494-516 | What is written for a message is its present fields in the order of the descriptor, each as the wire format has it, at every nesting depth. |
| `UnknownFields.UnknownIsSkipped` | ios/Pods.orig/nanopb/pb_decode.c:941-973 | Exactly what an unknown field, a tag and one payload of the wire format, does at any point of a message: decoding goes on behind it with slots and fields_seen unchanged, except that number zero in a message type without fields is refused. |
| `UnknownFields.UnknownFieldIsExact` | ios/Pods.orig/nanopb/pb_decode.c:941-973 | The same for whole messages: put between the fields or around them, an unknown field gives what the message gives without it, or, with number zero and no fields, a failure. |
| `UnknownFields.UnknownFieldIsIgnored` | ios/Pods.orig/nanopb/pb_common.c:78-95 | A message that decodes is left as it is by an unknown field if and only if the field does not have number zero in a message type without fields, where the terminator answers to it. |
| `UnknownFields.OneFieldIsSkipped` | ios/Pods.orig/nanopb/pb_decode.c:955-973 | Any field of the wire format whose number the reader lacks, however its tag is padded, is skipped whole. |
| `UnknownFields.ForeignMessageIsSkipped` | ios/Pods.orig/nanopb/pb_decode.c:955-973 | What the encoder writes for a message of one type is nothing to a reader whose type has none of its numbers: decoding goes on exactly behind it. |
| `UnknownFields.FieldsFirst` | ios/Pods.orig/nanopb/pb_decode.c:919-997 | Whole fields in front of anything are taken over first; then the rest is decoded from there. |
| `UnknownFields.SeenIsAppearing` | ios/Pods.orig/nanopb/pb_decode.c:988-997 | The fields_seen bits are exactly the indices of the required fields that appeared. |
| `UnknownFields.RequiredCheckIsExact` | ios/Pods.orig/nanopb/pb_decode.c:1000-1046 | Bytes that decode are refused as missing a required field if and only if one of the first 64 required fields never appeared. |
| `FieldIter.Iterator.Begin` | ios/Pods.orig/nanopb/pb_common.c:8-18 | The iterator stands on the first field, with both pointers at its offsets. |
| `FieldIter.Iterator.Next` | ios/Pods.orig/nanopb/pb_common.c:20-76 | Moves one field on, or back to the first with false after the last: a ring in which required_field_index and both pointers depend only on the position. |
| `FieldLayout.PointersAt` | ios/Pods.orig/nanopb/pb_common.c:38-75 | What the relative 32-bit offsets lead to: pData stands at the field's member and pSize at its flag or count, 2^32 further for every member on the way that lies before the one described before it. |
| `FieldLayout.PointersAreExact` | ios/Pods.orig/nanopb/pb.h:385-404 | The iterator reaches every member, unions and arrays included, if and only if the members lie in the struct in the order of their descriptors. |
| `FieldIter.Iterator.FindTag` | ios/Pods.orig/nanopb/pb_common.c:78-95 | Once round from any position: found if and only if some field has the tag; a failed search ends where it began. |
| `FieldIter.RequiredSeen.Mark` | ios/Pods.orig/nanopb/pb_decode.c:988-997 | Sets the bit of one index and no other, in two 32-bit words. |
| `FieldIter.RequiredSeen.HasAllOf` | ios/Pods.orig/nanopb/pb_decode.c:1023-1041 | Whole words first, then the bits of the last: true if and only if every index below the count was seen. |
| `FieldIter.RequiredSeen.Missing` | ios/Pods.orig/nanopb/pb_decode.c:1029-1041 | A word that differs from its mask lacks one of its bits. |
| `Encoder.EncodeTag` | ios/Pods.orig/nanopb/pb_encode.c:635-639 | Emits field number and wire type as one varint. |
| `Encoder.EncodeString` | ios/Pods.orig/nanopb/pb_encode.c:674-680 | Emits the length and the bytes, or fails when there is no room for both. |
| `Encoder.TextLength` | ios/Pods.orig/nanopb/pb_encode.c:831-855 | The scan ends at the terminator or at the end of the buffer. |
| `Encoder.EncodeValue` | ios/Pods.orig/nanopb/pb_encode.c:734-868 | Each field encoder emits the wire form of its kind, and fails exactly on a bad size, an over-long bytes field or lack of room. |
| `Encoder.EncodeSubmessage` | ios/Pods.orig/nanopb/pb_encode.c:682-730 | Sizing the message first and writing it to a stream of exactly that size emits its length and its bytes; the "submsg size changed" branch is proved dead. |
| `Encoder.PackedSize` | ios/Pods.orig/nanopb/pb_encode.c:144-165 | The size of a packed array, computed for fixed words and measured otherwise, is the number of bytes written for it. |
| `Encoder.EncodeEntries` | ios/Pods.orig/nanopb/pb_encode.c:176-189 | Emits the entries of a packed array in order, or fails exactly when they do not all fit. |
| `Encoder.EncodePacked` | ios/Pods.orig/nanopb/pb_encode.c:136-190 | Emits tag, size and entries; a sizing stream gets the same count without the entries. |
| `Encoder.EncodeUnpacked` | ios/Pods.orig/nanopb/pb_encode.c:191-208 | Emits a tag and an entry for each. |
| `Encoder.EncodeArrayField` | ios/Pods.orig/nanopb/pb_encode.c:126-211 | Nothing for an empty array, an error over array_size, packed when the kind allows it. |
| `Encoder.CheckDefault` | ios/Pods.orig/nanopb/pb_encode.c:215-303 | By presence, or for a submessage by its fields, says exactly whether the field is at its default. |
| `Encoder.CheckFields` | ios/Pods.orig/nanopb/pb_encode.c:215-303 | Walking the iterator over a submessage finds it at its default if and only if every field of it is. |
| `Encoder.EncodeBasicField` | ios/Pods.orig/nanopb/pb_encode.c:307-392 | Emits the field by its rule: absent optional, unset proto3 and other oneof members leave nothing. |
| `Encoder.EncodeFieldsOf` | ios/Pods.orig/nanopb/pb_encode.c:494-516 | Walking the iterator once round emits the message in descriptor order; fails if and only if it cannot be encoded or has no room. |
| `Encoder.EncodedSize` | ios/Pods.orig/nanopb/pb_encode.c:533-542 | The size counted is the exact length of the wire form, at every nesting depth. |
| `Encoder.EncodeToBuffer` | ios/Pods.orig/nanopb/pb_encode.c:84-119 | Encoding into a buffer succeeds if and only if the counted size is at most the buffer's; then the buffer starts with the wire form and the rest of it is untouched. |
| `Decoder.SkipVarintBytes` | ios/Pods.orig/nanopb/pb_decode.c:273-282 | Skips to the byte without a continuation bit, or fails at the end. |
| `Decoder.SkipString` | ios/Pods.orig/nanopb/pb_decode.c:284-291 | Skips exactly a length and that many bytes. |
| `Decoder.Skip` | ios/Pods.orig/nanopb/pb_decode.c:316-326 | Skips one field of the wire type; other wire types fail. |
| `Decoder.ReadTag` | ios/Pods.orig/nanopb/pb_decode.c:293-314 | Reads a tag; the end of the stream and a zero tag both end the message. |
| `Decoder.MakeSubstream` | ios/Pods.orig/nanopb/pb_decode.c:367-380 | The substream holds exactly the declared bytes, and the parent has that many less. |
| `Decoder.CloseSubstream` | ios/Pods.orig/nanopb/pb_decode.c:382-395 | The parent goes on exactly where the substream ends, whatever of it was left unread. |
| `Decoder.ReadString` | ios/Pods.orig/nanopb/pb_decode.c:1391-1461 | Reads a string up to the capacity, and fails beyond it. |
| `Decoder.DecodeNumber` | ios/Pods.orig/nanopb/pb_decode.c:1289-1389 | Each number decoder reads its kind and refuses what does not fit the C type. |
| `Decoder.DecodeBlob` | ios/Pods.orig/nanopb/pb_decode.c:1391-1508 | Bytes, strings with room for the terminator, and fixed-length bytes, for which an empty value means zeros. |
| `Decoder.DecodeValue` | ios/Pods.orig/nanopb/pb_decode.c:1463-1485 | Decodes any kind; a nested message is merged into what is there and consumes exactly its declared length. Cursor plus bytes_left drops by what the value loses, which is nothing on success. |
| `Decoder.DecodePackedArray` | ios/Pods.orig/nanopb/pb_decode.c:424-441 | Entries are added while there is room; the substream has bytes left exactly when they have no room or follow a bad entry. |
| `Decoder.DecodeStaticField` | ios/Pods.orig/nanopb/pb_decode.c:401-475 | Puts one field into its slot by its rule. Cursor plus bytes_left is kept, but for a packed array given up with bytes left over, which costs its whole declared length. |
| `Decoder.CountRequired` | ios/Pods.orig/nanopb/pb_decode.c:1000-1018 | Running the iterator to the end counts the required fields. |
| `Decoder.CheckRequired` | ios/Pods.orig/nanopb/pb_decode.c:1000-1046 | The check over fields_seen says yes exactly when all of the first 64 required fields were seen. |
| `Decoder.DecodeOne` | ios/Pods.orig/nanopb/pb_decode.c:941-997 | A known tag is decoded into its own slot, an unknown one is skipped; nothing else changes. |
| `Decoder.DecodeNoInit` | ios/Pods.orig/nanopb/pb_decode.c:901-1049 | The loop over any byte string terminates and agrees with the message the bytes mean; cursor plus bytes_left drops by exactly what the bytes lose, on success by nothing. |
| `Decoder.DecodeBytes` | ios/Pods.orig/nanopb/pb_decode.c:1051-1063 | Decoding a whole buffer into a fresh message yields what the bytes mean. |
| `Conservation.SumIsKept` | ios/Pods.orig/nanopb/pb_decode.c:401-441 | Over every byte string: cursor plus bytes_left is kept if and only if the first failing field, at whatever depth, is not a packed array with bytes left over. |
| `Conservation.MessageLoss` | ios/Pods.orig/nanopb/pb_decode.c:367-441 | Otherwise the loss is exactly the declared length of that array. |
| `Conservation.FirstFailureFails` | ios/Pods.orig/nanopb/pb_decode.c:919-997 | The first failing field is one: it cannot be decoded, and so neither can the message. |
| `Conservation.MessageLosesNothing` | ios/Pods.orig/nanopb/pb_decode.c:901-1049 | Fields that can be decoded lose nothing. |
| `OverfullArrays.LeftOverIsOverfull` | ios/Pods.orig/nanopb/pb_decode.c:424-436 | The bytes of a packed array of valid entries are left over if and only if the field has no room for all. |
| `OverfullArrays.OverfullArrayIsLost` | ios/Pods.orig/nanopb/pb_decode.c:424-441 | A family of inputs that lose bytes: a packed array of more valid entries than the field has room for is refused, and exactly its declared length is lost. |
| `Handshake.Connection.AddItem` | ios/Pods.orig/BoringSSL-GRPC/ssl/d1_both.cc:555-594 | Adding to a flight fails exactly when the flight that was not flushed has seven entries. |
| `Handshake.Connection.HearMessage` | ios/Pods.orig/BoringSSL-GRPC/ssl/handshake.cc:215-222 | A received message is hashed once, when it is consumed. |
| `Handshake.Connection.ReadChangeCipherSpec` | ios/Pods.orig/BoringSSL-GRPC/ssl/handshake.cc:524-538 | A ChangeCipherSpec is consumed only where it is due; a message in its place is an error that consumes nothing. |
| `Handshake.Connection.SendFinished` | ios/Pods.orig/BoringSSL-GRPC/ssl/handshake.cc:431-476 | The Finished covers exactly the transcript before it, and is hashed itself. |
| `Handshake.Connection.GetFinished` | ios/Pods.orig/BoringSSL-GRPC/ssl/handshake.cc:380-429 | Accepted if and only if the peer's Finished covers exactly this side's transcript; then it is hashed and consumed. |
| `ClientHandshake.Handle` | ios/Pods.orig/BoringSSL-GRPC/ssl/handshake_client.cc:1707-1789 | Any handler call, on any input, moves the machine only forward and keeps the safety and flight-size invariants. |
| `ClientHandshake.EveryRunIsSafe` | ios/Pods.orig/BoringSSL-GRPC/ssl/handshake_client.cc:1707-1789 | In every run, whatever the peer sends: at most seven entries a flight; before the ServerHello exactly the one last ClientHello is hashed, whether or not a HelloVerifyRequest came; done only after the server's Finished matched under the changed read state; a certificate handshake is done, or may write early, only after the chain was verified and an ephemeral key exchange's signature checked; and early writing needs every condition of a false start. |
| `ClientMachine.ClientHs.AddExtensionMessages` | ios/Pods.orig/BoringSSL-GRPC/ssl/handshake_client.cc:1481-1505 | NextProto and ChannelID are added as negotiated, in that order, and always fit. |
| `ClientMachine.ClientHs.CanFalseStartNow` | ios/Pods.orig/BoringSSL-GRPC/ssl/handshake_client.cc:1514-1536 | Agrees with the condition the safety theorem puts on early writes. |
| `ClientMachine.ClientHs.CallHandler` | ios/Pods.orig/BoringSSL-GRPC/ssl/handshake_client.cc:1707-1780 | From every good state the switch runs a handler that, assigning the fields in place, does exactly what the state's specification says, on every input; adding to the flight never hits the limit of seven. |
| `ClientMachine.FollowsOn` | ios/Pods.orig/BoringSSL-GRPC/ssl/handshake_client.cc:1707-1789 | Every handler call that moves on extends the run the safety theorem is about. |
| `ClientMachine.Machine.CallHandler` | ios/Pods.orig/BoringSSL-GRPC/ssl/handshake_client.cc:1707-1789 | One turn of the loop keeps the machine on a run of handler calls, waits only for what is missing, and reports an error or a callback only when the handler ended so. |
| `ClientMachine.Machine.Handshake` | ios/Pods.orig/BoringSSL-GRPC/ssl/handshake_client.cc:1707-1789 | The loop terminates, returns ok only when done, and every flush or read it asks for follows progress; an error is that of the last handler called. |
| `ClientMachine.Machine.Resolve` | ios/Pods.orig/BoringSSL-GRPC/ssl/handshake.cc:491-548 | Asks the network exactly when a flush or a read is waited for, goes on exactly when its answer is positive, and changes nothing of the handshake but what was waited for. |
| `ClientMachine.Machine.RunHandshake` | ios/Pods.orig/BoringSSL-GRPC/ssl/handshake.cc:491-628 | Terminates; success without early return means done with the server's Finished checked under the changed read state, and early return only after chain and key exchange were checked; without success a handler failed or asked for a callback again, or the answer is the network's last; an error is final. |
| `ServerHandshake.Handle` | ios/Pods.orig/BoringSSL-GRPC/ssl/handshake_server.cc:1539-1621 | Any handler call, on any input, moves the machine only forward and keeps the safety and flight-size invariants. |
| `ServerHandshake.EveryRunIsSafe` | ios/Pods.orig/BoringSSL-GRPC/ssl/handshake_server.cc:1539-1621 | In every run, whatever the peer sends: at most seven entries a flight; done only after the client's Finished matched under the changed read state; with a nonempty client chain only after it was verified and CertificateVerify checked. |
| `ServerMachine.ServerHs.MayRequestCertificate` | ios/Pods.orig/BoringSSL-GRPC/ssl/handshake_server.cc:640-650 | The three successive tests ask for a certificate exactly when peer verification is on, Channel ID does not stand in for it, and the cipher uses certificates. |
| `ServerMachine.ServerHs.CallHandler` | ios/Pods.orig/BoringSSL-GRPC/ssl/handshake_server.cc:1539-1612 | From every good state the switch runs a handler that, assigning the fields in place, does exactly what the state's specification says, on every input; adding to the flight never hits the limit of seven. |
| `ServerMachine.Machine.CallHandler` | ios/Pods.orig/BoringSSL-GRPC/ssl/handshake_server.cc:1539-1621 | One turn of the loop keeps the machine on a steady run of handler calls, waits only for what is missing, and reports an error or a callback only when the handler ended so. |
| `ServerMachine.Machine.Handshake` | ios/Pods.orig/BoringSSL-GRPC/ssl/handshake_server.cc:1539-1621 | The loop terminates, and returns ok only when done with the client's Finished checked and, for a nonempty chain, chain and CertificateVerify checked; an error is that of the last handler called. |
| `ServerMachine.FollowsOn` | ios/Pods.orig/BoringSSL-GRPC/ssl/handshake_server.cc:1539-1621 | Every handler call that moves on extends the run the theorems are about, and what it only looked at is what the next call is given. |
| `ServerMachine.Machine.Resolve` | ios/Pods.orig/BoringSSL-GRPC/ssl/handshake.cc:491-548 | Asks the network exactly when a flush or a read is waited for, goes on exactly when its answer is positive, and changes nothing of the handshake but what was waited for. |
| `ServerMachine.Machine.RunHandshake` | ios/Pods.orig/BoringSSL-GRPC/ssl/handshake.cc:491-628 | Terminates; success means done with the checks made; without success a handler failed or asked for a callback again, or the answer is the network's last; an error is final. |
| `ClientHistory.EveryRunIsLawful` | ios/Pods.orig/BoringSSL-GRPC/ssl/handshake_client.cc:385-1789 | Whatever the server sends: the messages and ChangeCipherSpecs that passed since the last HelloVerifyRequest, in order, are a handshake of the RFC up to where the client stands, each Finished over exactly what passed before it, and they are all that is hashed; a client that is done has been through a whole one. |
| `ClientHistory.CookieIsLawful` | ios/Pods.orig/BoringSSL-GRPC/ssl/handshake_client.cc:491-533 | A HelloVerifyRequest is answered by a second ClientHello, with which the hash and the sequence start over; anything else is left for the next state. |
| `ClientHistory.ChecksWereMade` | ios/Pods.orig/BoringSSL-GRPC/ssl/handshake_client.cc:871-1071 | A check the client claims was made by a call of the run: a positive verdict on the chain, a ServerKeyExchange with a good signature, a Finished equal to the hash of everything that passed before, under the changed read state. |
| `ClientHistory.CompletionMeans` | ios/Pods.orig/BoringSSL-GRPC/ssl/handshake_client.cc:1538-1672 | A client that is done, or writes early, has made the checks its handshake needs, on what it received. |
| `ClientHistory.CallsAreHonest` | ios/Pods.orig/BoringSSL-GRPC/ssl/handshake_client.cc:385-1705 | In any run, a call with a malformed body or a failed resource says, hears and settles nothing; a callback is called again exactly when it asks for that, and no key is used without its leave. |
| `ServerHistory.EveryRunIsLawful` | ios/Pods.orig/BoringSSL-GRPC/ssl/handshake_server.cc:426-1621 | Whatever the client sends: the messages and ChangeCipherSpecs that passed, in order, are a handshake of the RFC up to where the server stands, with exactly the messages it negotiated, each Finished over exactly what passed before it, and they are all that is hashed; a server that is done has been through a whole one. |
| `ServerHistory.SelectsOnHello` | ios/Pods.orig/BoringSSL-GRPC/ssl/handshake_server.cc:432-590 | While the server selects certificate and parameters, the message it looks at is still the ClientHello. |
| `ServerHistory.ChecksWereMade` | ios/Pods.orig/BoringSSL-GRPC/ssl/handshake_server.cc:1042-1461 | A check the server claims was made by a call of the run: a positive verdict on the chain, a CertificateVerify with a good signature, a Finished equal to the hash of everything that passed before, under the changed read state. |
| `ServerHistory.CompletionMeans` | ios/Pods.orig/BoringSSL-GRPC/ssl/handshake_server.cc:1439-1537 | A server that is done has matched the client's Finished and, if it was sent a chain, verified it and checked that the client has its key. |
| `ServerHistory.CallsAreHonest` | ios/Pods.orig/BoringSSL-GRPC/ssl/handshake_server.cc:426-1537 | In any run, a call with a malformed body or a failed resource says, hears and settles nothing, and callbacks are heeded. |
| `HandshakeFlow.Sends` | ios/Pods.orig/BoringSSL-GRPC/ssl/handshake.cc:431-476 | A side that sends what is due stays linked to the other: what is under way is exactly the rest of the flow, and a Finished covers exactly the common transcript. |
| `HandshakeFlow.Reads` | ios/Pods.orig/BoringSSL-GRPC/ssl/handshake.cc:380-429 | A side that reads what is due gets the item due at its stage, and a Finished that covers its own transcript. |
| `HandshakeFlow.Passes` | ios/Pods.orig/BoringSSL-GRPC/ssl/handshake.cc:491-628 | Passing a stage at which nothing is due keeps the two sides linked. |
| `HandshakeFlow.HeadIsDue` | ios/Pods.orig/BoringSSL-GRPC/ssl/handshake.cc:165-174 | The next item to read is the first one due from the reader's stage on, so it is never unexpected. |
| `HandshakeFlow.NothingYet` | ios/Pods.orig/BoringSSL-GRPC/ssl/handshake.cc:491-628 | A side that lacks an item the other has passed finds it under way. |
| `HandshakeProduct.ClientOnMessage` | ios/Pods.orig/BoringSSL-GRPC/ssl/handshake_client.cc:491-1672 | In step with a server, every client handler that gets a message accepts it and stays in step. |
| `HandshakeProduct.ClientOnNothing` | ios/Pods.orig/BoringSSL-GRPC/ssl/handshake_client.cc:385-1705 | In step with a server, every client handler that sends, or passes a stage, stays in step. |
| `HandshakeProduct.ClientReadsCcs` | ios/Pods.orig/BoringSSL-GRPC/ssl/handshake_client.cc:1649-1656 | The client finds the ChangeCipherSpec where it expects it. |
| `HandshakeProduct.ServerOnMessage` | ios/Pods.orig/BoringSSL-GRPC/ssl/handshake_server.cc:432-1461 | In step with a client, every server handler that gets a message accepts it and stays in step. |
| `HandshakeProduct.ServerOnNothing` | ios/Pods.orig/BoringSSL-GRPC/ssl/handshake_server.cc:426-1537 | In step with a client, every server handler that sends, or passes a stage, stays in step. |
| `HandshakeProduct.ServerReadsCcs` | ios/Pods.orig/BoringSSL-GRPC/ssl/handshake_server.cc:1365-1377 | The server finds the ChangeCipherSpec where it expects it. |
| `HandshakeRuns.ClientTurnIsSound` | ios/Pods.orig/BoringSSL-GRPC/ssl/handshake_client.cc:1707-1789 | A turn of the client never fails: it waits exactly when the item it needs is not visible, or goes on in step. |
| `HandshakeRuns.ServerTurnIsSound` | ios/Pods.orig/BoringSSL-GRPC/ssl/handshake_server.cc:1539-1621 | A turn of the server never fails: it waits exactly when the item it needs is not visible, or goes on in step. |
| `HandshakeRuns.TurnIsSound` | ios/Pods.orig/BoringSSL-GRPC/ssl/handshake.cc:491-628 | Any turn keeps the pair sound, and a turn that changes anything brings both nearer the end. |
| `HandshakeRuns.StuckIsDone` | ios/Pods.orig/BoringSSL-GRPC/ssl/handshake.cc:491-628 | The two machines never wait for each other: when neither can go on, both are done. |
| `HandshakeRuns.EveryScheduleIsSound` | ios/Pods.orig/BoringSSL-GRPC/ssl/handshake.cc:380-628 | Under every schedule of two machines that agree, full or resumed: no turn fails, no message is unexpected, each Finished matched the reader's own transcript, and in the end the transcripts are identical. |
| `HandshakeRuns.Completes` | ios/Pods.orig/BoringSSL-GRPC/ssl/handshake.cc:491-628 | From wherever a schedule has led, both handshakes can be completed within as many turns as handler calls are left. |
| `HandshakeCookie.CookieIsTaken` | ios/Pods.orig/BoringSSL-GRPC/ssl/handshake_client.cc:491-533 | A client that gets a HelloVerifyRequest says hello again and is then in step with a server that has hashed nothing. |
| `HandshakeCookie.MeetingTurnIsSound` | ios/Pods.orig/BoringSSL-GRPC/ssl/handshake.cc:491-628 | With a server that first asks for a cookie no turn fails, and a turn that changes anything brings both nearer the end. |
| `HandshakeCookie.EveryMeetingIsSound` | ios/Pods.orig/BoringSSL-GRPC/ssl/handshake.cc:380-628 | Under every schedule of two DTLS machines that agree, where the server asks for a cookie first: no turn fails, and when neither can go on both are done with the other's Finished matched and identical transcripts. |

## Left out

- Cryptography: AEAD, PRF, signatures, certificate parsing and the random generator are oracles; an AEAD may fail and grows a record by its maximum overhead at most.
- A Finished MAC is taken to be equal exactly when the transcripts it covers and the side it comes from are equal.
- Failures of memory allocation, and SSL_malloc paths in general.
- CBB and CBS: byte strings are built and parsed directly.
- Sealing and opening in place: records are sealed into new byte strings, so aliasing of input and output buffers is not modelled.
- DTLS timers and MTU discovery: the MTU is an input of every sending, at least the minimum the source enforces.
- SSL 3.0, TLS 1.3, renegotiation, early data, handoff and the TLS record layer.
- Extension negotiation, session lookup and version negotiation: what they come to is an input of the handlers.
- Handshake message bodies other than what the order of messages depends on; malformed bodies are an input flag.
- Outgoing: its message is parsed once when it is queued; the source parses the same bytes before each seal.
- ClientMachine.Machine.CallHandler: callbacks answer arbitrarily; what they read is not modelled.
- ClientHandshake.Handle: the verdict on a chain is ssl_verify_peer_cert's, which a custom callback under SSL_VERIFY_NONE can turn positive.
- Handshake.Connection.ReadChangeCipherSpec: under DTLS the source keeps a ChangeCipherSpec that arrives early for later; here it is an error at the place where a message is due. The flag itself is in ReceiverRing.
- ClientMachine.Machine.Resolve: discarded records and the retries they cause are one arrival.
- ClientMachine.Machine.RunHandshake: the same, for every read it waits for.
- RecordLayer.RecordReader.ChangeCipher: the refusal while handshake data is left over belongs to DtlsConnection.DtlsState.SetReadState, which owns reader and ring.
- ReceiverRing.Receiver.SetReadState: the record layer's half is in DtlsConnection.DtlsState.SetReadState.
- ReceiverRing.Receiver.NextMessage: the reply flag of the outgoing flight is set by DtlsConnection.DtlsState.NextMessage.
- Reassembly.NoEpochMixing: eras are the ring's own count; DtlsConnection.EpochsNeverMix ties them to the epochs of the records.
- ServerMachine.Machine.Resolve: discarded records and the retries they cause are one arrival, as for the client.
- HandshakeRuns.Completes: a message is visible to the peer once its flight was flushed; the channel does not lose it, since loss is the subject of the transport modules.
- HandshakeRuns.EveryScheduleIsSound: both sides have agreed on the negotiated parameters and every callback succeeds at once.
- HandshakeCookie.EveryMeetingIsSound: the same; the server of the source never sends HelloVerifyRequest, so what asks for the cookie is only as much of a server as section 4.2.1 of RFC 6347 needs, and cookies themselves are not compared.
- ServerHistory.EveryRunIsLawful: for runs in which a message that was only looked at stays the next one, as the connection keeps it.
- EndToEnd.FlightIsDelivered: arrival means that the receiver processed the record in its current epoch; records of a later epoch are dropped by the record layer and count as lost.
- Post-handshake use of the receiver: application data and retransmission triggered by the peer's timeout.
- nanopb pointer fields, callbacks, extensions, custom streams, and repeated fields of fixed count.
- nanopb memory: decoded values are returned in slots instead of being written through pData and pSize; that the pointers are those of the field's member is proved apart from that, in FieldLayout, for 64-bit pointers.
- Decoder.DecodeStaticField: what a failed decode leaves in the destination is not stated, nor for Decoder.DecodeValue and Decoder.DecodeNoInit.
- Encoder.EncodeToBuffer: what a failed encode leaves in the buffer is not stated.
- Encoder.EncodeSubmessage: size_t counters are unbounded, with the cast to 64 bits where the source has it.
- LongLengths.RoundTripIsExact: for wire forms below 2^63 bytes, more than any buffer holds.
- Descriptors with more than 2^32 entries, builds with 8-bit or 16-bit descriptor sizes and null submessage descriptors.
- RoundTrip.MessageRoundTrip: strings are terminated within their buffer, as the decoder needs room for the terminator.
- Refcount.LoopsRefineLock: memory orders; every atomic access is one step, in one order for all threads.
- Exception texts, error queues, info and message callbacks, alerts sent by the handlers.
- The Flutter code, AppAuth, GTMAppAuth and Reachability: declarations and user interface.
