# Models of the transport and codec code carried by TudoNosso

The application brings its network stack along as C and C++ sources: BoringSSL for DTLS and
TLS, and nanopb for protocol buffers. This project models four parts of them and proves what
they promise.

**DTLS handshake transport** (`ssl/d1_both.cc`, `ssl/d1_lib.cc`, `ssl/dtls_record.cc`; sections
4.2.2 to 4.2.4 and 4.1.2.6 of RFC 6347). A flight of handshake messages is cut into fragments
that fit an MTU and is sent again, possibly with other boundaries, when a timer expires; the
receiver filters replays with a 64-bit window, reassembles with a bitmask and hands messages out
of a ring of seven slots. The reassembly mask, the replay window, the ring and the sender are
classes (`Reassembly`, `ReplayWindow`, `HandshakeReader`, `FlightWriter`) proved equal to
functions of their state; `DtlsNetwork` joins both ends by a network that loses, repeats and
reorders. `DtlsReplay` puts the window in its place there, `DtlsNumbers` follows the record
numbers through a run, and `DtlsRecovery` shows that one retransmission that arrives repairs any
loss within the receiver's epoch. `DtlsDelivery` carries this through to the handshake: what the
flight carries is handed out, and a flight that crosses a change of keys takes two
retransmissions. `DtlsEpochs` shows that no message is taken
up under other keys than it was sealed with, `DtlsCalls` what the receiver keeps, takes and
refuses whatever records it is given. `DtlsFlight` keeps a history of the actions alone and shows
that a flight is exactly what was entered since it was begun, what a flush puts on the wire for
it, and under which keys and numbers.

**nanopb** (`pb_encode.c`, `pb_decode.c`, `pb_common.c`; the Protocol Buffers encoding
specification). `PbWire` holds the scalar formats, `PbMessage` descriptors and structs,
`PbEncode` and `PbDecode` what is written and read, as functions. `PbFieldIter`, `PbEncoder`,
`PbSeenBits` and `PbDecoder` are the program as it runs: streams, the circular iterator, two-pass
sizing, nested substreams and the bitmap of required fields. `PbMerge`, `PbRoundTrip`,
`PbConcat` and `PbLimits` hold the theorems about whole messages. `PbExchange` follows an
encoding into any struct and into a reader with another descriptor, `PbMerged` says what becomes
of the struct, `PbTruncated` what becomes of a message that is cut short. `PbBounds` and
`PbScalars` state what holds for bytes from anyone, `PbNegativeVarint` is the writer for builds
without 64-bit integers. Sizes have 32 bits, as this repository builds nanopb (`PB_FIELD_32BIT`).

**TLS write path** (`ssl/s3_pkt.cc`, `ssl/s3_both.cc`, `ssl/ssl_buffer.cc`). `SslBuffer` is the
sliding byte buffer, `TlsWriter` the object whose fields survive from call to call, `TlsWrite`
the function it computes, `TlsExactlyOnce`, `TlsCaller` and `TlsProgress` what holds over all
runs, `TlsPartial` what partial-write mode promises and how data is cut into records. The transport is a function from the number of the operation to its result, so that a
statement for all transports covers every pattern of short and failed writes.

**Handshake order, cipher choice and reference counts** (`ssl/handshake_client.cc`,
`ssl/handshake_server.cc`, `crypto/refcount_c11.c`, `crypto/refcount_lock.c`). Each transition of
the two state machines is a method over the handshake's fields and equals a function whose
contract ties what it sends or accepts to the message diagrams of RFC 5246 (section 7.3) and
RFC 5077 (section 3.3); the environment of a transition
(messages found, checks passed, callbacks asking for a retry) is arbitrary.
`HandshakeClientChecks` and `HandshakeServerChecks` say exactly when a state is left, and that a
finished handshake has been through every state and has passed every check on the way. `CipherChoice` proves
the selection loop optimal. `Refcount` runs threads step by step, with spurious failures of the
compare-and-swap.

Where a promise is not kept by the code, the exact condition under which it is kept is proved:

- a retried TLS write that offers fewer bytes than were already finished resets the count
  (`ShortRetryLosesTheCount`: exactly then), and those bytes are sealed again
  (`ForgottenBytesAreSealedTwice`, with a run of three calls in `SealedTwiceExample`);
- a flush that reports success has sent everything exactly when there was a flight to flush or
  nothing in the buffer (`FlushSendsAll`); a failed seal leads to the other case
  (`FailedSealStrandsTheFlight`, `StrandedExample`);
- decoding a concatenation is merging exactly when no zero tag ends the first part
  (`ConcatenationIsMerge`); a zero octet shows the failure (`ZeroTagHidesTheRest`), and nothing
  the encoder wrote ends that way (`EncodedNeverStops`, `EncodedConcatenation`);
- the 32-bit varint reader accepts some values above 2^63 that are not sign extensions
  (`Varint32Exact`, `AcceptedAboveThirtyTwoBits`), and its eight-bit bit position wraps on
  varints of more than 37 octets (`LongVarintWraps`);
- a string without room for its terminator, a zero or empty proto3 singular field whose default
  is not, and a bytes value larger than its field do not survive encoding and decoding
  (`StringNeedsItsTerminator`, `SingularDefaultMustBeZero`, `StructEncodes`: each exactly);
- a preference list can hide an acceptable cipher exactly when one behind its last closed group
  is usable and stands in no closed group (`OpenLastGroupIsIgnored`);
- the fragment loop admits one sequence number that the ring then refuses fatally
  (`OnePastTheRingIsFatal`);
- an MTU of 65536 octets of payload or more, which the option admits, makes a long message fail
  to seal (`LongRecordFails`); a failed seal skips exactly the records of the packet that was
  being built (`FlightTiles`).

`dafny verify dfyconfig.toml` checks the whole project.

## Model

| member | source | states |
|---|---|---|
| Fragments.ParseSerialized | TudoNosso/Pods/BoringSSL-GRPC/ssl/d1_both.cc:459-473 | A serialized handshake fragment parses back to the same header and body whatever follows it. |
| Fragments.SerializeParsed | TudoNosso/Pods/BoringSSL-GRPC/ssl/d1_both.cc:459-473 | A parsed fragment serialized again gives back exactly the octets it was read from, so the parser neither skips nor invents one. |
| Fragments.HeaderOctetsAre | TudoNosso/Pods/BoringSSL-GRPC/ssl/d1_both.cc:644-734 | The twelve octets of the header are type, message length, sequence number, fragment offset and fragment length, each number with its highest octet first; the body follows. |
| Reassembly.BitRangeBits | TudoNosso/Pods/BoringSSL-GRPC/ssl/d1_both.cc:203-207 | bit_range(start, end) has exactly the bits from start up to, not including, end. |
| Reassembly.SetBits | TudoNosso/Pods/BoringSSL-GRPC/ssl/d1_both.cc:222-236 | The three-part update of the bitmask adds the bits of [start, end) and changes no other bit. |
| Reassembly.AllBitsSet | TudoNosso/Pods/BoringSSL-GRPC/ssl/d1_both.cc:238-247 | The octet-wise completeness test answers true exactly when every one of the first msg_len bits is set. |
| Reassembly.HmFragment.Mark | TudoNosso/Pods/BoringSSL-GRPC/ssl/d1_both.cc:211-251 | Marking adds the range to the received bytes and releases the mask exactly when all bytes of the message have been received; the message stays valid. |
| Reassembly.MarkedAllIsUnion | TudoNosso/Pods/BoringSSL-GRPC/ssl/d1_both.cc:211-251 | After any list of marks byte k is marked if and only if some range of the list contains k. |
| Reassembly.CompleteIffCovered | TudoNosso/Pods/BoringSSL-GRPC/ssl/d1_both.cc:238-251 | The mask is released if and only if the ranges marked so far cover [0, msg_len). |
| ReplayWindow.BigEndianInjective | TudoNosso/Pods/BoringSSL-GRPC/ssl/dtls_record.cc:128-136 | Different sequence numbers of eight octets have different 64-bit values. |
| ReplayWindow.ToU64Be | TudoNosso/Pods/BoringSSL-GRPC/ssl/dtls_record.cc:128-136 | The shift-and-or loop computes the big-endian value of the octets. |
| ReplayWindow.DiscardMeansSeenOrStale | TudoNosso/Pods/BoringSSL-GRPC/ssl/dtls_record.cc:140-150 | A window that represents a set of numbers discards s if and only if s is not above the maximum and is 64 or more below it or in the set. |
| ReplayWindow.RecordRepresents | TudoNosso/Pods/BoringSSL-GRPC/ssl/dtls_record.cc:155-175 | Recording a number, with the slide of the bitmap, represents the set with that number added. |
| ReplayWindow.RunRefinesSet | TudoNosso/Pods/BoringSSL-GRPC/ssl/dtls_record.cc:225-259 | After any sequence of arrivals, authentic or not, the bitmap stands for exactly the numbers accepted. |
| ReplayWindow.AcceptsExactlyFresh | TudoNosso/Pods/BoringSSL-GRPC/ssl/dtls_record.cc:225-259 | Over any history an authentic record is accepted if and only if its number is new and not older than the window: no number twice, no fresh one refused. |
| ReplayWindow.Bitmap.ShouldDiscardRecord | TudoNosso/Pods/BoringSSL-GRPC/ssl/dtls_record.cc:140-150 | The method over the bitmap object gives the verdict of the window it represents and leaves it as it was. |
| ReplayWindow.Bitmap.RecordReceipt | TudoNosso/Pods/BoringSSL-GRPC/ssl/dtls_record.cc:155-175 | The in-place slide and set of the bitmap object is the recording step of the window. |
| DtlsReceiver.LookupFindsSequence | TudoNosso/Pods/BoringSSL-GRPC/ssl/d1_both.cc:265-295 | The slot an in-window fragment is looked up in is empty or holds a message with that very sequence number, so the assertion at line 276 cannot fail. |
| DtlsReceiver.OpenFragmentKeepsRing | TudoNosso/Pods/BoringSSL-GRPC/ssl/d1_both.cc:345-403 | Every fragment, well-formed or not, leaves each slot empty or with a message whose number is the slot's residue and lies in [read_seq, read_seq + 7). |
| DtlsReceiver.OpenHandshakeKeepsRing | TudoNosso/Pods/BoringSSL-GRPC/ssl/d1_both.cc:297-406 | Every record, of any content type and any bytes, keeps the ring invariant and the read counter. |
| DtlsReceiver.NextMessageKeepsRing | TudoNosso/Pods/BoringSSL-GRPC/ssl/d1_both.cc:426-438 | Taking the current message frees its slot and no other, and the ring invariant holds for the next number. |
| DtlsReceiver.ChangeOfKeysKeepsRing | TudoNosso/Pods/BoringSSL-GRPC/ssl/dtls_method.cc:81-95 | Using up a ChangeCipherSpec and moving to the next epoch keep the ring invariant, and the epoch moves only when no slot but the current message's is occupied. |
| DtlsReceiver.OnePastTheRingIsFatal | TudoNosso/Pods/BoringSSL-GRPC/ssl/d1_both.cc:380-390 | The number read_seq + 7 passes the bound of the fragment loop and is refused, fatally, by the bound of the ring lookup. |
| DtlsCalls.CallsKeepRing | TudoNosso/Pods/BoringSSL-GRPC/ssl/d1_both.cc:297-489 | For every sequence of opening records of any content, forged ones included, getting, giving up messages and changing keys: the ring invariant holds, a message handed out stays complete until it is given up, and the counter moves once for each message given up. |
| DtlsCalls.CompleteSurvives | TudoNosso/Pods/BoringSSL-GRPC/ssl/d1_both.cc:392-403 | A complete message of the ring is changed by no record and no call but the one that gives it up. |
| DtlsCalls.FragmentIsAdded | TudoNosso/Pods/BoringSSL-GRPC/ssl/d1_both.cc:345-403 | A fragment is refused, with the alert given, exactly when it is out of bounds or too long, is not the awaited one in epoch 1, lies one past the ring, or disagrees in type or length with what is held; outside the window it changes nothing; and otherwise its bytes and no others are added to its message. |
| DtlsCalls.AcceptedIsWhole | TudoNosso/Pods/BoringSSL-GRPC/ssl/d1_both.cc:345-405 | A handshake record is not taken unless it consists of whole fragments; a piece of one at its end is fatal. |
| DtlsCalls.OtherRecords | TudoNosso/Pods/BoringSSL-GRPC/ssl/d1_both.cc:306-343 | After any calls on a new receiver: application data changes nothing and is fatal before the first change of keys, ignored after it; a ChangeCipherSpec is taken before the first change of keys alone and only with its one octet; every other record is fatal. |
| DtlsCalls.ChangeCipherSpecAnswered | TudoNosso/Pods/BoringSSL-GRPC/ssl/d1_both.cc:475-489 | The call succeeds if and only if a ChangeCipherSpec was held or the record brings it, and uses it up, a held one without a look at the record; any other record is buffered or refused as ever. |
| HandshakeReader.Reader.GetIncomingMessage | TudoNosso/Pods/BoringSSL-GRPC/ssl/d1_both.cc:265-295 | The lookup over the object ring returns the slot's fragment, a new one, or the alert that the specification gives. |
| HandshakeReader.Reader.OpenOneFragment | TudoNosso/Pods/BoringSSL-GRPC/ssl/d1_both.cc:345-403 | One turn of the loop over the object ring equals the specification: same outcome, same contents of all slots. |
| HandshakeReader.Reader.Open | TudoNosso/Pods/BoringSSL-GRPC/ssl/d1_both.cc:297-406 | The whole of dtls1_open_handshake over the object ring equals the specification on the record. |
| HandshakeReader.Reader.Get | TudoNosso/Pods/BoringSSL-GRPC/ssl/d1_both.cc:408-424 | The message handed out is the one at read_seq if it is complete, and nothing otherwise; asking twice gives the same message. |
| HandshakeReader.Reader.Next | TudoNosso/Pods/BoringSSL-GRPC/ssl/d1_both.cc:426-438 | The object ring after the call is the specification's: the slot of the delivered message is freed and the counter advances. |
| HandshakeReader.Reader.OpenChangeCipherSpec | TudoNosso/Pods/BoringSSL-GRPC/ssl/d1_both.cc:475-489 | A record is read first only if no ChangeCipherSpec is held already; one that is held is used up, and the contents of all slots are the specification's. |
| HandshakeReader.Reader.HasUnprocessedData | TudoNosso/Pods/BoringSSL-GRPC/ssl/d1_both.cc:440-457 | The scan of the object ring answers true exactly when a ChangeCipherSpec or a message other than the current one is held. |
| HandshakeReader.Reader.SetReadEpoch | TudoNosso/Pods/BoringSSL-GRPC/ssl/dtls_method.cc:81-95 | The epoch field moves on, and the null cipher is left, exactly when the scan finds nothing left over; otherwise the object stays as it was. |
| DtlsSender.FlightTiles | TudoNosso/Pods/BoringSSL-GRPC/ssl/d1_both.cc:644-827 | Whatever the transport answers, the records that went out, followed by those a failed seal lost, tile the flight contiguously from the position before to the position after: a failed write skips no byte and repeats none, and without a failed seal nothing is lost. |
| DtlsSender.PacketsFitMtu | TudoNosso/Pods/BoringSSL-GRPC/ssl/d1_both.cc:739-780 | No packet of a flight is empty, and none is longer than the MTU. |
| DtlsSender.FlightSucceeds | TudoNosso/Pods/BoringSSL-GRPC/ssl/d1_both.cc:782-827 | A well-formed flight is always built when the MTU leaves room for a byte of body and no ciphertext can outgrow its sixteen-bit length; the call reports success if and only if the whole flight is out and the transport flushed. |
| DtlsSender.LongRecordFails | TudoNosso/Pods/BoringSSL-GRPC/ssl/dtls_record.cc:294-352 | The bound on ciphertexts is needed: an MTU that admits a fragment of 65536 octets and a message that long make the seal fail; nothing is sent, and the record number is used up. |
| DtlsSender.SealRecords | TudoNosso/Pods/BoringSSL-GRPC/ssl/d1_both.cc:739-780 | The records of a packet move the pair of message index and offset strictly forward, and nothing else but record numbers, which is why send_flight ends. |
| FlightWriter.Writer.SealMessage | TudoNosso/Pods/BoringSSL-GRPC/ssl/d1_both.cc:644-734 | Sealing the next fragment from the object's fields gives the specification's record, result and new position. |
| FlightWriter.Writer.SealPacket | TudoNosso/Pods/BoringSSL-GRPC/ssl/d1_both.cc:739-780 | The packet loop over the object's fields builds exactly the specification's packet. |
| FlightWriter.Writer.Send | TudoNosso/Pods/BoringSSL-GRPC/ssl/d1_both.cc:782-827 | The flight loop, with its rewind on a failed write, sends exactly the specification's packets and ends in its state. |
| FlightWriter.Writer.Add | TudoNosso/Pods/BoringSSL-GRPC/ssl/d1_both.cc:555-594 | The array-backed flight after an entry is the specification's: begun anew when the last one was complete, refused at the eighth entry, and otherwise longer by this entry; that a flight so built holds every message entered since it was begun is DtlsFlight.RunKeepsFlight. |
| FlightWriter.Writer.Timeout | TudoNosso/Pods/BoringSSL-GRPC/ssl/d1_lib.cc:168-267 | A timeout counts, may fall back to another MTU, gives up after twelve, and otherwise sends the whole flight again, as the specification says. |
| FlightWriter.Writer.OnHandshakeComplete | TudoNosso/Pods/BoringSSL-GRPC/ssl/dtls_method.cc:71-79 | The timeouts are forgotten, and the flight is dropped exactly when it has had a reply. |
| DtlsFlight.EntryJoinsFlight | TudoNosso/Pods/BoringSSL-GRPC/ssl/d1_both.cc:555-594 | Before a flush an entry goes behind those of the flight, which stay, and the position stays; the first entry after a flush is the whole flight, from its start; an entry is refused exactly when seven wait and none of them was flushed. |
| DtlsFlight.RunKeepsFlight | TudoNosso/Pods/BoringSSL-GRPC/ssl/d1_both.cc:555-602 | In every run the flight is exactly the list of messages and ChangeCipherSpecs accepted since it was begun, each with the epoch of its time; which those are is read off the actions alone: a flight is begun by the first entry after a flush, or when the handshake is told that it was answered. |
| DtlsFlight.FlushBringsAll | TudoNosso/Pods/BoringSSL-GRPC/ssl/d1_both.cc:782-834 | A flight that has just been built, flushed over a working transport: every byte of every message entered since it was begun is in a record on the wire, under the keys of the message's epoch. |
| DtlsFlight.FlushBringsChangeCipherSpec | TudoNosso/Pods/BoringSSL-GRPC/ssl/d1_both.cc:782-834 | And so is every ChangeCipherSpec of the flight. |
| DtlsFlight.RunKeepsWire | TudoNosso/Pods/BoringSSL-GRPC/ssl/dtls_record.cc:274-352 | In every run each record is sealed with the cipher of its epoch, as its length shows, and within an epoch record numbers increase, so none is used twice. |
| DtlsFlight.TimeoutsCounted | TudoNosso/Pods/BoringSSL-GRPC/ssl/d1_lib.cc:168-267 | The thirteenth timeout since the flight was begun or answered fails and sends nothing, every earlier one sends the flight again, and from the third on a usable fallback MTU is taken. |
| DtlsFlight.PacketIsFull | TudoNosso/Pods/BoringSSL-GRPC/ssl/d1_both.cc:739-780 | A packet ends only with the flight, with a fragment that filled it, or where the next message does not fit in any part. |
| DtlsFlight.FragmentFills | TudoNosso/Pods/BoringSSL-GRPC/ssl/d1_both.cc:681-734 | A fragment that does not end its message takes all the room that is left, but for what the cipher may add. |
| DtlsNetwork.RunKeepsInv | TudoNosso/Pods/BoringSSL-GRPC/ssl/d1_both.cc:297-438 | In every run of sender, network and receiver, with loss, duplication, reordering, changes of MTU and changes of keys on both sides, every record is a true fragment of a queued message and every received byte is the sender's. |
| DtlsNetwork.DeliveredIsPrefix | TudoNosso/Pods/BoringSSL-GRPC/ssl/d1_both.cc:297-845 | End to end: the messages handed out are, in every run, changes of keys included, a prefix of the messages queued, in order and byte for byte. |
| DtlsNetwork.GetIsNext | TudoNosso/Pods/BoringSSL-GRPC/ssl/d1_both.cc:408-424 | In every run dtls1_get_message hands out nothing, or exactly the queued message that follows those delivered. |
| DtlsReplay.RunKeepsWindow | TudoNosso/Pods/BoringSSL-GRPC/ssl/dtls_record.cc:177-272 | In every run of the network the window stands for exactly the numbers opened in the receiver's epoch. |
| DtlsReplay.DeliveredOnce | TudoNosso/Pods/BoringSSL-GRPC/ssl/dtls_record.cc:177-272 | In every run a record is opened exactly when it is of the receiver's epoch, not too long, not opened before and less than 64 behind the last; one that is not changes nothing, so a second delivery has no effect. |
| DtlsEpochs.RunKeepsEpochs | TudoNosso/Pods/BoringSSL-GRPC/ssl/dtls_method.cc:81-109 | In every run the entries of the flight, the records on the wire and the messages of the ring are of the epoch in which their message was queued, except a message handed out before the keys changed. |
| DtlsEpochs.HandedOutInItsEpoch | TudoNosso/Pods/BoringSSL-GRPC/ssl/dtls_method.cc:81-95 | In every run a message handed out for the first time was queued under the keys the receiver uses: refusing to change keys over leftover data is enough for that. |
| DtlsNumbers.RunKeepsNumbers | TudoNosso/Pods/BoringSSL-GRPC/ssl/dtls_record.cc:294-352 | In every run each number on the wire is below the sender's counter for its epoch, and the replay window's maximum is the number of a record that was sent in the receiver's epoch. |
| DtlsRecovery.RetransmissionRecovers | TudoNosso/Pods/BoringSSL-GRPC/ssl/d1_both.cc:782-845 | From every reachable state with the sender in the receiver's epoch or one ahead, one retransmission that gets through completes at the receiver every message of its epoch not handed out before, whatever was lost and whichever MTU was used, and its ChangeCipherSpec is held. |
| DtlsRecovery.FlightArrives | TudoNosso/Pods/BoringSSL-GRPC/ssl/d1_both.cc:297-406 | Delivering the records of a tiled flight in order makes each message of the receiver's epoch complete in the ring or already delivered, and records of the other epoch pass without harm. |
| DtlsDelivery.RetransmissionDelivers | TudoNosso/Pods/BoringSSL-GRPC/ssl/d1_lib.cc:247-267 | From every reachable state with a flight to repeat: timer, delivery of what is sent, and get and next, repeated, hand out all messages before n, for any n up to which the flight carries what is missing under the receiver's keys; a ChangeCipherSpec of the flight is then held. |
| DtlsDelivery.TwoRetransmissionsDeliver | TudoNosso/Pods/BoringSSL-GRPC/ssl/dtls_method.cc:81-109 | A flight that crosses a change of keys: after the first retransmission the receiver's ring is empty and it can change keys, and after a second one everything the flight carries has been handed out. |
| DtlsDelivery.CrossingFlightDelivers | TudoNosso/Pods/BoringSSL-GRPC/ssl/d1_both.cc:782-845 | The same from every reachable state. |
| DtlsFlight.UnansweredIsDelivered | TudoNosso/Pods/BoringSSL-GRPC/ssl/d1_both.cc:782-845 | From every reachable state: when, by the history of the actions, the messages up to n were entered in the present flight under the receiver's keys, one retransmission that arrives hands out all of them; nothing is assumed of what the flight holds. |
| DtlsFlight.UnansweredCrossingIsDelivered | TudoNosso/Pods/BoringSSL-GRPC/ssl/d1_both.cc:782-845 | Likewise when the messages from n on were entered under the next keys: two retransmissions hand out the flight. |
| PbWire.VarintRoundTrip | TudoNosso/Pods/nanopb/pb_decode.c:250-270 | The ten-octet reader gives back every 64-bit value from its canonical varint and consumes just that. |
| PbWire.Varint32Exact | TudoNosso/Pods/nanopb/pb_decode.c:182-242 | For every 64-bit value: the 32-bit reader returns values below 2^32, refuses larger ones below 2^63, and from 2^63 on accepts exactly those whose bit 31 is set and whose middle groups are all zeros or all ones, cut to 32 bits. |
| PbWire.Varint32RoundTrip | TudoNosso/Pods/nanopb/pb_decode.c:182-247 | On canonical encodings below 2^63 the 32-bit reader accepts v if and only if v is below 2^32, and then returns v. |
| PbWire.AcceptedAboveThirtyTwoBits | TudoNosso/Pods/nanopb/pb_decode.c:217-225 | A concrete value that is not a sign extension and is accepted all the same: 2^63 + 2^31 reads as 2^31. |
| PbWire.LongVarintWraps | TudoNosso/Pods/nanopb/pb_decode.c:204-228 | The eight-bit bit position wraps: 37 empty groups followed by the octet 1 read as 8 instead of being refused. |
| PbWire.ZigZagRoundTrip | TudoNosso/Pods/nanopb/pb_encode.c:596-605 | Zig-zag decoding inverts zig-zag encoding on every signed 64-bit value, and the code of i is 2i or -2i - 1. |
| PbWire.FixedRoundTrip | TudoNosso/Pods/nanopb/pb_decode.c:1254-1286 | Little-endian octets read back to the value, for both widths. |
| PbNegativeVarint.EncodeNegativeVarint | TudoNosso/Pods/nanopb/pb_encode.c:548-572 | The writer for builds without 64-bit integers, with its compensation loop, emits octet for octet the varint of the sign-extended 64-bit value. |
| PbNegativeVarint.NegativeRoundTrip | TudoNosso/Pods/nanopb/pb_decode.c:182-247 | The 32-bit reader gives every negative 32-bit value back from the ten octets of its sign extension. |
| PbFieldIter.FieldIter.Next | TudoNosso/Pods/nanopb/pb_common.c:20-76 | In every reachable state the data and size pointers, the slot and the required-field index equal those computed from scratch for the index; the step is circular. |
| PbFieldIter.FieldIter.FindTag | TudoNosso/Pods/nanopb/pb_common.c:78-95 | The search takes at most one lap, finds what a plain search finds, and restores the position when it finds nothing. |
| PbFieldIter.SlotsAreRegions | TudoNosso/Pods/nanopb/pb_common.c:39-73 | Fields that share a slot share their data pointer; pointers never decrease, and a field outside any union ends before the data of every later field. |
| PbMerge.FindAnywhere | TudoNosso/Pods/nanopb/pb_common.c:78-95 | With distinct tags the field found does not depend on where the iterator stands. |
| PbMerge.StepStable | TudoNosso/Pods/nanopb/pb_decode.c:919-1003 | A field that decodes looks no further than its own octets: appending bytes to the stream changes nothing in that step. |
| PbMerge.PositionIrrelevant | TudoNosso/Pods/nanopb/pb_decode.c:901-1046 | Decoding gives the same struct, remainder and verdict wherever the iterator was left and whatever required fields were seen before. |
| PbMerge.ConcatenationIsMerge | TudoNosso/Pods/nanopb/pb_decode.c:901-1046 | Without required fields, decoding an accepted a followed by b is decoding a and then b into the result, if no zero tag ended a; if one did, b is not read, and the result says exactly that. |
| PbConcat.EncodedNeverStops | TudoNosso/Pods/nanopb/pb_encode.c:494-516 | Bytes the encoder wrote never end at a zero tag and are read to their end, into whatever struct they are decoded. |
| PbConcat.EncodedConcatenation | TudoNosso/Pods/nanopb/pb_decode.h:71-80 | If an encoding is accepted into some struct, then with any bytes behind it decoding goes on with these into the result: merging, with no condition on tags left to the caller. |
| PbConcat.EncodingsMerge | TudoNosso/Pods/nanopb/pb_decode.h:71-80 | Two encodings, one after the other, decode as the second merged into what the first round-trips to. |
| PbConcat.ZeroTagHidesTheRest | TudoNosso/Pods/nanopb/pb_decode.c:917-931 | The input for which it fails: a zero octet is accepted as a whole message, and all that follows it stays unread. |
| PbExchange.SkipsWhatIsWritten | TudoNosso/Pods/nanopb/pb_encode.c:641-672 | What is written for a value is a payload of the very wire type in its tag: skipping by that number alone ends exactly behind it. |
| PbExchange.SkipsPacked | TudoNosso/Pods/nanopb/pb_encode.c:143-190 | A packed array is written with wire type 2, and skipping ends exactly behind it. |
| PbExchange.Reads | TudoNosso/Pods/nanopb/pb_decode.c:901-1046 | An encoding decoded into any struct, by a reader whose descriptor may lack fields of the writer's or have others, gives field by field what merging makes of the reader's struct, and reads everything; it is refused exactly when merging finds no room. |
| PbMerged.LastOneWins | TudoNosso/Pods/nanopb/pb_decode.c:401-475 | What one field does to a slot that holds something already: absent, it leaves it alone; items go behind those that are there, in order; the last scalar and the last oneof member win; a submessage is merged into the one that is there. |
| PbMerged.UnpackedItemsAppended | TudoNosso/Pods/nanopb/pb_decode.c:414-475 | Items written one by one with their tags, of packable fields too, are appended in order, and refused when they are too many for the array. |
| PbMerged.RoomExact | TudoNosso/Pods/nanopb/pb_decode.c:425-455 | Merging two messages is refused if and only if some array, at some depth, is too small for the items of both. |
| PbMerged.DecodedInto | TudoNosso/Pods/nanopb/pb_decode.h:71-80 | Decoding an encoding into any struct succeeds if and only if the arrays have the room, and then gives the merged struct, slot by slot. |
| PbMerged.SecondMessage | TudoNosso/Pods/nanopb/pb_decode.h:71-80 | Two encodings, one after the other, required fields or not: the second message is merged into the first, under the same condition. |
| PbMerged.OtherReader | TudoNosso/Pods/nanopb/pb_decode.c:951-963 | A reader with an older or newer descriptor accepts a message that has its required fields: unknown fields are passed over, fields both know arrive as written, and fields that the writer lacks keep their defaults. |
| PbTruncated.CutMessageRefused | TudoNosso/Pods/nanopb/pb_decode.c:901-1046 | An encoding cut after any number of octets is refused, by its own descriptor and by every other that agrees with it, unless the cut is between fields or between the unpacked items of an array. |
| PbTruncated.CutItemRefused | TudoNosso/Pods/nanopb/pb_decode.c:100-134 | A stream that ends inside a field is refused, whether the reader knows the field or not. |
| PbMerge.SkipsExactly | TudoNosso/Pods/nanopb/pb_decode.c:316-327 | Skipping a well-formed payload of any of the four wire types consumes exactly its octets. |
| PbMerge.UnknownFieldsTransparent | TudoNosso/Pods/nanopb/pb_decode.c:933-963 | Inserting a well-formed field with an unknown non-zero tag at any field boundary leaves verdict, struct and remainder as they were. |
| PbMerge.RequiredCheckExact | TudoNosso/Pods/nanopb/pb_decode.c:988-1046 | When every field decodes, the message is refused if and only if one of the first 64 required fields never appeared, however tags repeat and wherever the iterator stopped. |
| PbSeenBits.SeenBits.Mark | TudoNosso/Pods/nanopb/pb_decode.c:988-994 | Setting one bit of the word array adds one field to the set of those seen. |
| PbSeenBits.SeenBits.AllMarked | TudoNosso/Pods/nanopb/pb_decode.c:1025-1044 | The whole words and the masked last word are as the source tests them exactly when all of the first n fields were seen. |
| PbDecoder.IStream.DecodeVarint | TudoNosso/Pods/nanopb/pb_decode.c:250-270 | The loop over the stream object reads what the functional reader reads and leaves the stream just behind it. |
| PbDecoder.IStream.DecodeVarint32 | TudoNosso/Pods/nanopb/pb_decode.c:182-242 | The loop with its quick case, eight-bit bit position, sign-extension test and final overflow test gives the functional reader's verdict, value and end-of-stream flag. |
| PbDecoder.IStream.MakeSubstream | TudoNosso/Pods/nanopb/pb_decode.c:367-380 | A substream is limited to the announced length, and the parent continues behind it. |
| PbDecoder.DecodeSubmessage | TudoNosso/Pods/nanopb/pb_decode.c:1463-1485 | A submessage is decoded on a limited substream, from defaults when repeated, and consumes exactly its length from the parent. |
| PbDecoder.DecodeStaticField | TudoNosso/Pods/nanopb/pb_decode.c:401-475 | The decoder of one field over the stream object equals the specification for every field kind, packed and unpacked; what a later occurrence does to a field is PbMerged.LastOneWins. |
| PbDecoder.DecodeFields | TudoNosso/Pods/nanopb/pb_decode.c:901-1046 | The message loop over stream, circular iterator and bitmap succeeds exactly when the specification does, with its struct and its remainder. |
| PbDecoder.Decode | TudoNosso/Pods/nanopb/pb_decode.c:1051-1063 | pb_decode starts from the defaults and equals the specification. |
| PbEncoder.OStream.Write | TudoNosso/Pods/nanopb/pb_encode.c:101-119 | A write succeeds exactly when it fits the room left, changes no octet outside it, and counts the same on a measuring stream. |
| PbEncoder.OStream.EncodeVarint | TudoNosso/Pods/nanopb/pb_encode.c:574-594 | The local buffer filled group by group holds the varint, on measuring and writing streams alike. |
| PbEncoder.EncodeSubmessage | TudoNosso/Pods/nanopb/pb_encode.c:682-730 | The sizing pass and the writing pass agree at every nesting level, so the branch for a changed size is unreachable. |
| PbEncoder.EncodeArrayField | TudoNosso/Pods/nanopb/pb_encode.c:126-211 | A packed array announces exactly the octets it then writes, by multiplication for fixed-width items and by measuring for others; unpacked arrays write tagged items. |
| PbEncoder.EncodeBasicField | TudoNosso/Pods/nanopb/pb_encode.c:307-392 | A field writes what the specification gives for it, and nothing when it is absent or a proto3 default; that its wire type is the one of its payload is PbExchange.SkipsWhatIsWritten. |
| PbEncoder.Encode | TudoNosso/Pods/nanopb/pb_encode.c:494-516 | The iterator loop succeeds exactly when the encoding exists and fits the room, and the stream then holds exactly its octets. |
| PbEncoder.GetEncodedSize | TudoNosso/Pods/nanopb/pb_encode.c:533-542 | The measured size is the length of the encoding, and measuring fails exactly when encoding does. |
| PbEncoder.EncodeToBuffer | TudoNosso/Pods/nanopb/pb_encode.c:494-516 | A message is written if and only if its measured size fits the buffer; nothing behind it is touched. |
| PbRoundTrip.ValueRoundTrip | TudoNosso/Pods/nanopb/pb_decode.c:1289-1508 | Every typed value of every field kind, submessages included, reads back from what is written for it. |
| PbRoundTrip.MessageRoundTrip | TudoNosso/Pods/nanopb/pb_decode.c:1051-1063 | For every well-formed descriptor tree and every struct that encodes, decoding the encoding succeeds, reads all of it, and gives back all that a reader of the struct can see (a string up to its first zero), with nested, optional, oneof, packed and unpacked repeated fields. |
| PbBounds.DecodedInBounds | TudoNosso/Pods/nanopb/pb_decode.c:901-1046 | Whatever the bytes are, a struct within its bounds (counts, string and bytes lengths, integer ranges, at every depth) is still within them once they are accepted. |
| PbBounds.AcceptedReencodes | TudoNosso/Pods/nanopb/pb_decode.c:1051-1063 | Bytes from anyone that are accepted leave a struct that encodes, and decoding this encoding gives the struct as a reader sees it. |
| PbScalars.SignedFieldExact | TudoNosso/Pods/nanopb/pb_decode.c:1289-1324 | A signed field takes the one number of its range that agrees with the varint in the low 32 bits, or in all 64 for eight octets; fields of one and two octets refuse what they cannot hold, the others refuse nothing. |
| PbScalars.NumberTakenOrRefused | TudoNosso/Pods/nanopb/pb_decode.c:1326-1372 | A field of n octets takes an unsigned number exactly when it is below 256 to the n, and a zig-zag number exactly when it is in the signed half of that range, each as it is. |
| PbScalars.FixedLengthExact | TudoNosso/Pods/nanopb/pb_decode.c:1487-1506 | A fixed-length field takes exactly its length, or an empty payload, which stands for zeros. |
| PbScalars.CharsExact | TudoNosso/Pods/nanopb/pb_decode.c:1391-1461 | Bytes are taken exactly when they fit behind their count, strings exactly when their terminator fits. |
| PbScalars.SkipFieldExact | TudoNosso/Pods/nanopb/pb_decode.c:273-327 | Skipping passes over one payload of the wire type and stops behind it; it refuses exactly the payloads that are cut short and the wire types other than 0, 1, 2 and 5. |
| PbScalars.AnyVarintIsRead | TudoNosso/Pods/nanopb/pb_decode.c:250-271 | Every varint of up to ten octets, the shortest or not, is read as the value of its groups cut to 64 bits; a longer one is refused. |
| PbScalars.OrIsBitwise | TudoNosso/Pods/nanopb/pb_decode.c:182-242 | The groups of a 32-bit varint, overlapping ones too, are joined bit by bit. |
| PbScalars.VarintIsShortest | TudoNosso/Pods/nanopb/pb_encode.c:574-594 | A varint is written as groups of seven bits, lowest first, with the value in them and no group of zeros at its end. |
| PbScalars.FixedOctets | TudoNosso/Pods/nanopb/pb_decode.c:1254-1286 | Fixed-size numbers are read with their lowest octet first. |
| PbScalars.WrittenExactly | TudoNosso/Pods/nanopb/pb_encode.c:734-868 | A number, string or bytes value is written if and only if its size is one the encoder knows and its length fits its field. |
| PbScalars.ArrayTooLong | TudoNosso/Pods/nanopb/pb_encode.c:126-141 | A count above the size of its array makes the whole message fail to encode. |
| PbScalars.EmptyDescriptor | TudoNosso/Pods/nanopb/pb_decode.c:901-963 | A message type without fields refuses a tag 0 with a wire type, since its terminator has that tag. |
| PbScalars.ZeroTagEndsSubmessage | TudoNosso/Pods/nanopb/pb_decode.c:367-393 | A zero tag ends a submessage too; what follows it inside the announced length is passed over and changes nothing. |
| PbRoundTrip.AllDefaultIsNormal | TudoNosso/Pods/nanopb/pb_encode.c:215-303 | A struct whose fields all count as proto3 defaults looks like the default struct, so what the encoder leaves out cannot be missed. |
| PbLimits.StringNeedsItsTerminator | TudoNosso/Pods/nanopb/pb_decode.c:1428-1461 | What is written of a string, up to its first zero, is read back if and only if it leaves room for a terminator; a string that fills its array is written and then refused. |
| PbLimits.SingularDefaultMustBeZero | TudoNosso/Pods/nanopb/pb_encode.c:215-303 | In any message with an otherwise well-formed descriptor, a proto3 singular number, string or bytes field that is zero or empty survives encoding and decoding if and only if its default is zero or empty. |
| PbLimits.OmittedFieldIsDefault | TudoNosso/Pods/nanopb/pb_decode.c:828-899 | A field that is not written is decoded as its default, whatever the rest of the message holds. |
| PbLimits.StructEncodes | TudoNosso/Pods/nanopb/pb_encode.c:494-516 | A struct that the C types allow encodes if and only if every bytes value it writes, at any depth, has room in its field. |
| SslBuffers.SslBuffer.EnsureCap | TudoNosso/Pods/BoringSSL-GRPC/ssl/ssl_buffer.cc:47-81 | Growing keeps the contents, fails exactly above 0xffff, and aligns what follows a header of the given length to eight. |
| SslBuffers.SslBuffer.DidWrite | TudoNosso/Pods/BoringSSL-GRPC/ssl/ssl_buffer.cc:83-88 | Bytes filled into the room behind the contents become contents, in order. |
| SslBuffers.SslBuffer.Consume | TudoNosso/Pods/BoringSSL-GRPC/ssl/ssl_buffer.cc:90-97 | Consuming drops bytes from the front and keeps the rest and the room. |
| TlsWrite.FlushBuffer | TudoNosso/Pods/BoringSSL-GRPC/ssl/ssl_buffer.cc:239-252 | Over any pattern of short and failed writes, what the transport took and what is left are together what was there; success means that nothing is left. |
| TlsWrite.FlushRest | TudoNosso/Pods/BoringSSL-GRPC/ssl/s3_both.cc:258-269 | The same for the pending flight and its offset. |
| TlsExactlyOnce.FlushFlightKeepsInv | TudoNosso/Pods/BoringSSL-GRPC/ssl/s3_both.cc:231-279 | Flushing keeps all sealed bytes in their order, whatever the transport does: the buffer leaves before the flight. |
| TlsExactlyOnce.AddMessageTiles | TudoNosso/Pods/BoringSSL-GRPC/ssl/s3_both.cc:184-205 | A handshake message is cut into records of at most max_send_fragment that carry it once and in order; if sealing fails, a first part of it. |
| TlsExactlyOnce.AddRecordKeepsInv | TudoNosso/Pods/BoringSSL-GRPC/ssl/s3_both.cc:135-165 | Adding a record puts its ciphertext behind everything sealed before. |
| TlsExactlyOnce.DoWriteKeeps | TudoNosso/Pods/BoringSSL-GRPC/ssl/s3_pkt.cc:221-289 | One record write seals each byte once, whatever it returns, moves a waiting flight in front of the record, and empties the buffer if it succeeds. |
| TlsExactlyOnce.WritePendingKeeps | TudoNosso/Pods/BoringSSL-GRPC/ssl/s3_pkt.cc:202-218 | A pending record is finished or stays pending; it is never sealed again, and a mismatched retry changes nothing. |
| TlsExactlyOnce.WriteAppDataKeeps | TudoNosso/Pods/BoringSSL-GRPC/ssl/s3_pkt.cc:129-200 | After a positive result r exactly the first r bytes of the request are sealed and have left the buffer; otherwise the bytes sealed so far are remembered. |
| TlsExactlyOnce.ShortRetryLosesTheCount | TudoNosso/Pods/BoringSSL-GRPC/ssl/s3_pkt.cc:144-159 | The account of sealed bytes stays exact if and only if the retry is not shorter than wnum; a shorter one changes nothing but to forget wnum. |
| TlsCaller.ExactlyOnce | TudoNosso/Pods/BoringSSL-GRPC/ssl/s3_pkt.cc:129-289 | For every run of writes with retries, handshake messages, flushes and alerts over every transport: wire, buffer and flight hold the records in the order sealed, the application plaintexts are the caller's stream up to what was reported plus what is in hand, and what was reported had been taken by the transport. |
| TlsCaller.RunKeeps | TudoNosso/Pods/BoringSSL-GRPC/ssl/s3_pkt.cc:129-289 | The invariant behind it is kept by every action a caller is allowed. |
| TlsCaller.EmptyBufferIsDurable | TudoNosso/Pods/BoringSSL-GRPC/ssl/s3_pkt.cc:202-218 | With an empty buffer all application records are on the wire, since none is ever in the pending flight. |
| TlsProgress.RetriedWriteCompletes | TudoNosso/Pods/BoringSSL-GRPC/ssl/s3_pkt.cc:129-218 | A refused write leaves a state the same call can go on from, any number of times, and completes as soon as the transport accepts bytes. |
| TlsPartial.PartialWriteReports | TudoNosso/Pods/BoringSSL-GRPC/ssl/s3_pkt.cc:170-200 | With SSL_MODE_ENABLE_PARTIAL_WRITE a call seals at most one record; a positive result adds exactly that record, or the pending one, to what was accepted, with nothing left in the buffer; otherwise wnum is as it was, and a record sealed in the call has not left the buffer. |
| TlsPartial.PartialWriteProgress | TudoNosso/Pods/BoringSSL-GRPC/ssl/s3_pkt.cc:170-200 | A refused partial write can be retried as it is, and over a transport that takes bytes every call reports some. |
| TlsPartial.PartialWritesComplete | TudoNosso/Pods/BoringSSL-GRPC/ssl/s3_pkt.cc:129-200 | A caller who writes the rest again after each partial write sends all of it, once, in as few records as the fragment size allows. |
| TlsPartial.RecordsAreFull | TudoNosso/Pods/BoringSSL-GRPC/ssl/s3_pkt.cc:170-200 | In either mode, whatever the transport does, the only record of a write that is not full is the one with its last bytes. |
| TlsPartial.MessageIsCutFull | TudoNosso/Pods/BoringSSL-GRPC/ssl/s3_both.cc:184-205 | A handshake message goes in as few records as the fragment size allows, all full but the last, and an empty one in a record of its own. |
| TlsPartial.RetryMustMatch | TudoNosso/Pods/BoringSSL-GRPC/ssl/s3_pkt.cc:202-218 | A pending record can be finished by a request of its type with at least its bytes, at the same address unless moving buffers are allowed; any other is refused and changes nothing. |
| TlsPartial.FlushEndsInTransport | TudoNosso/Pods/BoringSSL-GRPC/ssl/s3_both.cc:231-279 | A flush of a flight succeeds only if the transport's own flush did, and releases the flight exactly then. |
| TlsPartial.AlertIsTwoOctets | TudoNosso/Pods/BoringSSL-GRPC/ssl/s3_pkt.cc:405-424 | An alert that is sent is one record: its level, then its description; after a fatal one the transport is flushed. |
| TlsProgress.FailedSealStrandsTheFlight | TudoNosso/Pods/BoringSSL-GRPC/ssl/s3_pkt.cc:258-273 | If sealing fails after the flight has moved into the buffer, its bytes stay there: later records are refused and a flush reports success without writing. |
| TlsProgress.FlushSendsAll | TudoNosso/Pods/BoringSSL-GRPC/ssl/s3_both.cc:231-279 | A flush that reports success has put every byte sealed so far on the wire if and only if there was a flight to flush or the buffer was empty. |
| TlsProgress.StrandedExample | TudoNosso/Pods/BoringSSL-GRPC/ssl/s3_both.cc:231-243 | A run from a new connection that reaches the other case: a message is queued, a write fails to seal, and the flush reports success with the message unsent. |
| TlsProgress.ForgottenBytesAreSealedTwice | TudoNosso/Pods/BoringSSL-GRPC/ssl/s3_pkt.cc:144-159 | After a retry shorter than wnum, a record pending or not, the next complete write seals again everything behind the bytes that the pending record stands for; the application bytes sealed are given exactly. |
| TlsProgress.SealedTwiceExample | TudoNosso/Pods/BoringSSL-GRPC/ssl/s3_pkt.cc:144-200 | A run of three calls from a new connection, the last of which reports success, after which all bytes but the first have been sealed twice. |
| TlsWriter.Writer.FlushWriteBuffer | TudoNosso/Pods/BoringSSL-GRPC/ssl/ssl_buffer.cc:239-252 | The loop over the buffer object and the transport equals its specification. |
| TlsWriter.Writer.FlushPendingFlight | TudoNosso/Pods/BoringSSL-GRPC/ssl/s3_both.cc:231-279 | ssl3_flush_flight over the fields equals its specification. |
| TlsWriter.Writer.AddRecordToFlight | TudoNosso/Pods/BoringSSL-GRPC/ssl/s3_both.cc:135-165 | add_record_to_flight over the fields equals its specification. |
| TlsWriter.Writer.AddHandshakeMessage | TudoNosso/Pods/BoringSSL-GRPC/ssl/s3_both.cc:184-205 | The do-while loop over the message equals its specification, the empty message included. |
| TlsWriter.Writer.FinishPending | TudoNosso/Pods/BoringSSL-GRPC/ssl/s3_pkt.cc:202-218 | ssl3_write_pending over the fields equals its specification. |
| TlsWriter.Writer.WriteRecord | TudoNosso/Pods/BoringSSL-GRPC/ssl/s3_pkt.cc:221-289 | do_ssl3_write over the fields and the buffer object equals its specification; the abort in DidWrite is unreachable. |
| TlsWriter.Writer.WriteApplicationData | TudoNosso/Pods/BoringSSL-GRPC/ssl/s3_pkt.cc:129-200 | ssl3_write_app_data with its loop over chunks equals its specification, in both modes; what that means for a partial write is TlsPartial.PartialWriteReports. |
| HandshakeFlow.GoOn | TudoNosso/Pods/BoringSSL-GRPC/ssl/handshake_client.cc:1707-1789 | Steps that fit the flow between two places extend a prefix of a handshake to a longer prefix. |
| HandshakeFlow.OrderIsUnique | TudoNosso/Pods/BoringSSL-GRPC/ssl/handshake_client.cc:1707-1789 | A list of messages in flow order is determined by which messages it has. |
| HandshakeFlow.KeyOrder | TudoNosso/Pods/BoringSSL-GRPC/ssl/handshake_client.cc:1457-1657 | In a complete handshake each party changes keys once and finishes once, Finished under the new keys; the server goes first exactly when a session is resumed. |
| HandshakeFlow.PartiesAgree | TudoNosso/Pods/BoringSSL-GRPC/ssl/handshake_server.cc:1439-1509 | Two complete handshakes with the same messages per direction are the same: same resumption, same interleaving. |
| HandshakeClient.Step | TudoNosso/Pods/BoringSSL-GRPC/ssl/handshake_client.cc:385-1789 | Every transition that does not wait lowers a rank that depends on the resumption flag, and sends or accepts exactly what the flow has between its two states; when a state may be left at all is HandshakeClientChecks.StepIsExact. |
| HandshakeClientRuns.RunKeeps | TudoNosso/Pods/BoringSSL-GRPC/ssl/handshake_client.cc:1707-1789 | In every run the messages so far are a prefix of one handshake of the kind that the session says. |
| HandshakeClientRuns.ClientOrder | TudoNosso/Pods/BoringSSL-GRPC/ssl/handshake_client.cc:385-1789 | Every client run that ends without TLS 1.3 has gone through one complete handshake; its own Finished and the server's occur once each, each after its change of keys, the server's first exactly when the session is resumed. |
| HandshakeClientRuns.CooperationCompletes | TudoNosso/Pods/BoringSSL-GRPC/ssl/handshake_client.cc:385-1789 | With a peer that sends what the state accepts, optional messages and HelloVerifyRequest sent or left out, and a transport that works, every handshake reaches its end within a bounded number of turns. |
| HandshakeClientChecks.StepIsExact | TudoNosso/Pods/BoringSSL-GRPC/ssl/handshake_client.cc:385-1789 | A state is left if and only if the message it is there for was accepted, or may be lacking, and every check and callback in it succeeded; the next state, the wait, the messages and the fields after it are given, and a state that is not left changes nothing but the wait. |
| HandshakeClientChecks.EveryStateIsPassed | TudoNosso/Pods/BoringSSL-GRPC/ssl/handshake_client.cc:1707-1789 | Every client run that ends without TLS 1.3 has been through all the states of its kind of handshake, once and in order, left each as StepIsExact demands, and its messages are those of the states. |
| HandshakeClientChecks.ClientHasChecked | TudoNosso/Pods/BoringSSL-GRPC/ssl/handshake_client.cc:871-889 | In such a run every message of the server was accepted in a state whose checks had succeeded, ServerHello and Finished among them, and where certificates authenticate the server's was accepted and verified. |
| HandshakeClientLoop.ClientHandshake.Transition | TudoNosso/Pods/BoringSSL-GRPC/ssl/handshake_client.cc:1707-1775 | One turn of the switch over the mutable fields gets closer to the end unless it waits where it was, keeps all messages so far, and adds just those that a handshake has between the old and the new value of the state field. |
| HandshakeClientLoop.ClientHandshake.Handshake | TudoNosso/Pods/BoringSSL-GRPC/ssl/handshake_client.cc:1707-1789 | The while loop over the mutable state ends, by the rank; it returns without a wait only when the state is done; the messages in the object stay a prefix of one handshake; and the fields are those of the recursive driver. |
| HandshakeClientLoop.ClientHandshake.RunHandshakeOnce | TudoNosso/Pods/BoringSSL-GRPC/ssl/handshake.cc:491-628 | However often ssl_run_handshake is entered, the messages in the object stay a prefix of one handshake, and once the object is done without TLS 1.3 they are one complete handshake with its key messages in order. |
| HandshakeServer.Step | TudoNosso/Pods/BoringSSL-GRPC/ssl/handshake_server.cc:426-1621 | As for the client: progress by rank, and exactly the messages between two states. |
| HandshakeServerRuns.ServerOrder | TudoNosso/Pods/BoringSSL-GRPC/ssl/handshake_server.cc:426-1621 | Every server run that ends without TLS 1.3 has gone through one complete handshake, with the same order of keys and Finished messages. |
| HandshakeServerRuns.CooperationCompletes | TudoNosso/Pods/BoringSSL-GRPC/ssl/handshake_server.cc:426-1621 | With a client that sends what the state accepts, optional messages sent or left out, and a working transport every handshake completes within a bounded number of turns. |
| HandshakeServerChecks.StepIsExact | TudoNosso/Pods/BoringSSL-GRPC/ssl/handshake_server.cc:426-1621 | As for the client: exactly when a state is left, and what then happens. |
| HandshakeServerChecks.EveryStateIsPassed | TudoNosso/Pods/BoringSSL-GRPC/ssl/handshake_server.cc:1539-1621 | As for the client: a finished run has been through every state of its kind, once and in order. |
| HandshakeServerChecks.ServerHasChecked | TudoNosso/Pods/BoringSSL-GRPC/ssl/handshake_server.cc:1042-1056 | In a finished run every message of the client was accepted with its checks passed, the ClientHello, ClientKeyExchange and Finished among them; a request for a certificate was answered; and a client key was verified, and the signature made with it. |
| HandshakeServerLoop.ServerHandshake.Transition | TudoNosso/Pods/BoringSSL-GRPC/ssl/handshake_server.cc:1539-1608 | As for the client: the rank of the state field falls unless the machine waits, and the messages added are those between its old and new value. |
| HandshakeServerLoop.ServerHandshake.Handshake | TudoNosso/Pods/BoringSSL-GRPC/ssl/handshake_server.cc:1539-1621 | The while loop of the server over its mutable state: it ends, returns without a wait only when done, and keeps the messages a prefix of one handshake. |
| HandshakeAgreement.SameHandshake | TudoNosso/Pods/BoringSSL-GRPC/ssl/handshake_server.cc:426-1621 | A client run and a server run that both finish, and that accepted exactly what the other sent, agree on resumption and saw all messages in the same interleaving. |
| CipherChoice.ChooseFrom | TudoNosso/Pods/BoringSSL-GRPC/ssl/handshake_server.cc:390-421 | The one-pass loop with its running group minimum returns the best acceptable cipher: earliest group, then earliest place in the other list; none exactly when no cipher of a closed group is acceptable. |
| CipherChoice.ChooseCipher | TudoNosso/Pods/BoringSSL-GRPC/ssl/handshake_server.cc:357-424 | With server preference the optimum by server groups and client order; without it the client's first acceptable cipher; none exactly when there is none to choose. |
| CipherChoice.UsableMeans | TudoNosso/Pods/BoringSSL-GRPC/ssl/handshake_server.cc:390-399 | A cipher counts as usable if and only if the version is in its range, one algorithm is in both its key exchange and the configuration's mask for it, and one in both its authentication and that mask. |
| CipherChoice.BestIsUnique | TudoNosso/Pods/BoringSSL-GRPC/ssl/internal.h:1860-1889 | The optimum is unique, so the specification determines the result. |
| CipherChoice.WithoutGroupsFirstWins | TudoNosso/Pods/BoringSSL-GRPC/ssl/handshake_server.cc:381-385 | Without groups the optimum is the first acceptable cipher of the preferred list. |
| CipherChoice.OpenLastGroupIsIgnored | TudoNosso/Pods/BoringSSL-GRPC/ssl/handshake_server.cc:414-423 | On the preferred list alone: the pass never misses an acceptable cipher, whatever the other list and the configuration, if and only if every cipher behind the last closed group is useless or stands in a closed group too; for different usable ciphers, if and only if the last flag is 0. |
| CipherChoice.OpenLastGroupExample | TudoNosso/Pods/BoringSSL-GRPC/ssl/handshake_server.cc:402-423 | The pass, run on one usable cipher whose flag says that its group goes on, returns none. |
| RefcountCas.RunIsAtomic | TudoNosso/Pods/BoringSSL-GRPC/crypto/refcount_c11.c:37-65 | Every interleaving of compare-and-swap loops, with any spurious failures, is a history of one atomic saturating counter. |
| RefcountCas.ConcurrentCount | TudoNosso/Pods/BoringSSL-GRPC/crypto/refcount_c11.c:37-65 | Unsaturated, the count is the initial one plus increments minus decrements; saturated, it never changes; if no increment follows zero, exactly one decrement reports zero when the count ends at zero, and none otherwise. |
| RefcountCas.AbortMeansZero | TudoNosso/Pods/BoringSSL-GRPC/crypto/refcount_c11.c:54-55 | The process aborts only in a decrement during which the count was zero. |
| RefcountCas.OvertakenByProgress | TudoNosso/Pods/BoringSSL-GRPC/crypto/refcount_c11.c:41-46 | A round that fails for a reason has been overtaken by a completed call of another thread. |
| RefcountLock.RunIsAtomic | TudoNosso/Pods/BoringSSL-GRPC/crypto/refcount_lock.c:29-51 | Every interleaving of the version with plain loads and stores under the lock is a history of the same counter. |
| RefcountLock.ConcurrentCount | TudoNosso/Pods/BoringSSL-GRPC/crypto/refcount_lock.c:29-51 | The same promises for the version with the lock, whenever the lock is free. |
| RefcountLock.MutualExclusion | TudoNosso/Pods/BoringSSL-GRPC/crypto/refcount_lock.c:30-48 | In no run from the start are two threads inside the critical section together. |
| RefcountSpec.ReleasedOnce | TudoNosso/Pods/BoringSSL-GRPC/crypto/internal.h:399-416 | If no increment follows zero, one decrement reports zero exactly when the count ends at zero. |
| RefcountSpec.SaturationIsForever | TudoNosso/Pods/BoringSSL-GRPC/crypto/internal.h:399-416 | A saturated count never changes again and no later decrement reports zero. |
| RefcountSpec.IncrementAfterZeroReleasesTwice | TudoNosso/Pods/BoringSSL-GRPC/crypto/internal.h:399-416 | The condition is needed: an increment after zero makes two decrements report zero. |

## Left out

- Cryptography: sealing and opening records, hashing, signatures and certificates are parameters with a bounded expansion or an arbitrary verdict.
- Sealing: a fixed function of record number, type and plaintext in the TLS write path, so that a seal that failed fails again; in DTLS it fails by the length of the ciphertext only.
- Sequence number wrap: the 16-bit handshake sequence, the 16-bit epoch and the 48-bit record number are assumed not to wrap.
- HandshakeReader.Reader.Open: body bytes not received yet read as zero, where the source has uninitialised memory; no statement depends on them.
- FlightWriter.Writer.Timeout: whether the timer has expired is a choice of the run; durations and the doubling of the timeout are not modelled.
- DtlsRecovery.RetransmissionRecovers: for messages that the receiver's ring and length limit admit, and in the encrypted epoch for the next message in order, since a DTLS handshake has one message there.
- DtlsFlight.FlushBringsAll: for a flight of the sender's epoch and the one before, since no other can be sealed, and for an MTU as in DtlsSender.FlightSucceeds.
- PbMerged.OtherReader: for descriptors that give a tag the same type wherever both have it; of a oneof it says what the reader holds when the members it keeps together are kept together by the writer.
- Allocation failure: every allocation succeeds, except that SSLBuffer refuses capacities above 0xffff and fragments above the message limit are refused.
- PbDecoder.Decode: nanopb structs are sequences of slots rather than memory, one slot for each field and one for each union; the contents of a struct after a failed decode are not described, and error strings are not modelled.
- PbFieldIter.FieldIter.Next: pointers are integers; that they stay inside an object is the descriptor's affair.
- PbWire.LongVarintWraps: takes `uint_fast8_t` to have eight bits, as on the platforms the application is built for; where it is wider, such varints are refused.
- PbEncoder.Encode: assumes what the C types guarantee, that sizes fit a 64-bit size_t and tags fit 29 bits.
- PbRoundTrip.MessageRoundTrip: for encodings below 2^32 octets, since the decoder reads lengths as 32-bit varints.
- nanopb callbacks, extensions, custom streams, pointer fields and fixed-count repeated fields are not part of this model, nor is the release of the pointers of an old oneof member (`PB_ENABLE_MALLOC`).
- SslBuffers.SslBuffer.EnsureCap: the 16-bit width of offset_ is not modelled; the static assertions of the source bound the real capacities.
- TlsWrite.FlushBuffer: sizes are unbounded integers, so the overflow tests on size_t have no counterpart; the transport is always set.
- TlsWriter.Writer.WriteApplicationData: early data is left out, and record splitting of TLS 1.0 is inside the abstract seal.
- Alerts and shutdown appear only as other records in the TLS write path and as a flag.
- HandshakeClient.Step: the fields of the handshake that do not decide its course (keys, transcript, extensions, session contents) are left out; the two kinds of wait for a message are one.
- HandshakeServer.Step: as for the client; handoff and the pending lookups are one kind of callback wait.
- TLS 1.3, renegotiation and early data end in a state of their own that the order theorems exclude.
- RefcountCas.RunIsAtomic: memory is sequentially consistent, as the default order of C11 atomics gives for a single location.
- The application's own Swift code, the session cache, X.509, ASN.1 and all other Pods are not part of this model.
