# Verified model of SHRUTI

SHRUTI streams microphone audio from several phones to a laptop, which aligns the streams,
beamforms them and follows the speakers. This project models the parts of it whose
correctness is a matter of logic rather than of acoustics, and proves what those parts are
for. `dafny verify dfyconfig.toml` checks everything.

The modules follow the program:

- **Wire format.** `Bytes`, `Crc32c`, `LongDivision`, `SelfTest`, `Protocol`,
  `WireExample`, `RegisterOrder`, `Mersenne` and `ErrorDetection` cover the Python packet
  format: the checksum from table loops down to polynomial division, header, packet and sample
  round trips, and which corruptions are always caught (bursts, odd numbers of bits, and up to
  three bits).
  `KotlinProtocol` is the phone's port over signed integers and a byte buffer, proved to
  produce and accept the same bytes. `WebSocketFrames` is the phone-side frame encoder.
- **Synchronisation.** `Lfsr` and `Chirp` treat the chip generator as a linear recurrence and
  prove it maximal-length. `Sums`, `Correlation`, `DelayRecovery` and `EarlyRecovery` treat
  the peak search on exact sums and prove when it returns the true delay, late or early.
- **Transport and ingest.** `TransportClient` is the phone's bounded queue as a transition
  system over every interleaving, next to the class itself. `PhoneConnection`,
  `PacketServer` and `ServerRuns` are the laptop's registry: the classes, their value-level
  steps, and what every run keeps; `PhoneRuns` is one phone's part in such a run.
- **Stream path.** `DspLoop` holds the rolling buffers and the aligner registry,
  `StreamRuns` their behaviour under every schedule, and `Pipeline` joins them to the server:
  from captured to buffered samples. `Recorder` is the run recorder, `Lockstep` the
  recorded demo from end to end, and `FileNames` the names of recordings and how the
  fallback reads them.
- **Tracking.** `Tracker` is the multi-speaker tracker with its track objects;
  `TrackerGeometry` is its behaviour in the plane, and `SpeakerIdentity` shows that it refines
  a tracker that is told who is speaking.

`Options` and `Counting` hold what several of them share.

Objects that the program updates in place are classes; each method's postcondition ties the
object to a step function on values, and the results about runs are proved of those
functions. A packet handler and a socket close are one atomic step each, since the server
does not suspend inside them; clock readings are parameters. The transforms of the
correlation are replaced by the circular sum that `correlation.py` line 41 states, samples
are reals, and distances are compared squared.

Where code and documentation differ, the model follows the code:

- `find_offset_sub_sample` is documented as giving sub-sample precision. Its result is
  always an integer, because the refined peak is truncated; with the peak at the middle index
  it can also change sign (`Correlation.SubSampleIsSafe`, `Correlation.SignChangeExample`).
- `find_offset` maps delays of half the padded length or more to other values
  (`DelayRecovery.DelayFound`, `DelayRecovery.AliasExample`, `EarlyRecovery.EarlyFound`).
- `max_lag` is documented as windowing the search. Lags outside are set to zero but still
  searched, so with a bound of zero or more the offset can fall outside the window, and
  then it is `-(max_lag + 1)` (`Correlation.WindowRespectedIff`, `Correlation.OutsideWindowExample`).
- `aligned_window` says that each call advances the buffer. It hands out the newest window
  but discards the oldest, so under backlog windows repeat (`StreamRuns.BacklogRepeats`,
  `StreamRuns.BacklogExample`, `StreamRuns.GaplessIffInStep`).
- The server prunes a phone when its socket closes, but only the one the socket registered
  last (`ServerRuns.EmptyIffOnePhoneEach`, `ServerRuns.LeakExample`).
- A comment in `TransportClient.send` promises that the newest audio is kept. With two
  concurrent callers the packet issued last can be the one lost
  (`TransportClient.NewestCanBeLost`, `TransportClient.LossIffContention`). Another comment
  says that the inbound server drains the same queue; the code hands it the packet directly.
- `sentCount` is documented as counting packets delivered to the socket. The loop ignores the
  boolean that the socket's `send` returns, so a refused packet counts too
  (`TransportClient.Client.SendOldest`).
- The Kotlin framer does not check the packet type and can frame a packet that both
  verifiers refuse (`KotlinProtocol.FrameThenVerify`).
- The recorder maps channels to phones by position; its documentation assumes ascending
  registration, and `Lockstep.LosslessIff` shows the assumption is needed.

## Model

| member | source | states |
|---|---|---|
| `Crc32c.BuildTable` | apps/laptop/shruti_array/protocol.py:187-197 | The nested loops fill all 256 entries so that entry i is the register reached from i by eight single-bit divisions. |
| `Crc32c.Crc32c` | apps/laptop/shruti_array/protocol.py:203-207 | The byte loop over that table returns the checksum of the bit-serial register, for every message and start value. |
| `Crc32c.LookupStep` | apps/laptop/shruti_array/protocol.py:206 | One table lookup does what absorbing the byte's eight bits one at a time does. |
| `Crc32c.ChecksumAppend` | apps/laptop/shruti_array/protocol.py:203-207 | Streaming: the checksum of a ++ b is that of b continued from the register a leaves. |
| `Crc32c.RunLinear` | apps/laptop/shruti_array/protocol.py:203-207 | The register is linear: running the sum of two messages from the sum of two registers gives the sum of the results. |
| `Crc32c.RunInjective` | apps/laptop/shruti_array/protocol.py:203-207 | The register step loses nothing: two start values that end equal after the same message were equal. |
| `LongDivision.ReflectedGenerator` | apps/laptop/shruti_array/protocol.py:180-184 | The code's reflected constant 0x82F63B78 is the Castagnoli polynomial 0x1EDC6F41 read in the other direction. |
| `LongDivision.ChecksumIsRemainder` | apps/laptop/shruti_array/protocol.py:180-207 | The checksum of every message is the remainder of schoolbook polynomial division by the Castagnoli polynomial of the inverted-start, zero-extended message, complemented. |
| `SelfTest.DigitsCheck` | apps/laptop/shruti_array/protocol.py:212-217 | The checksum of the nine digits is 0xE3069283, the value the import-time self-test demands. |
| `Protocol.FrameSucceeds` | apps/laptop/shruti_array/protocol.py:120-152 | Framing succeeds exactly for an even payload of at most 16384 samples with sequence, rate and timestamp in their field widths. |
| `Protocol.ParseHeaderBytes` | apps/laptop/shruti_array/protocol.py:80-117 | Parsing a packed header, whatever follows it and whatever the reserved word, returns its fields with phone id and flags masked to a byte. |
| `Protocol.HeaderBytesOfParse` | apps/laptop/shruti_array/protocol.py:80-117 | Conversely any bytes that parse are the packing of what was parsed, up to the reserved word. |
| `Protocol.VerifySealed` | apps/laptop/shruti_array/protocol.py:155-177 | A header and a payload of the announced length, sealed with their checksum, verify and pay out that payload, whatever the reserved word. |
| `Protocol.FrameThenVerify` | apps/laptop/shruti_array/protocol.py:120-177 | What was framed verifies to the same fields (phone id and flags modulo 256) and pays out the same samples. |
| `Protocol.AcceptedIsSealed` | apps/laptop/shruti_array/protocol.py:155-171 | Every accepted packet is the sealed packing of its own header and payload with some reserved word: nothing else is accepted. |
| `Protocol.VerifyThenReframe` | apps/laptop/shruti_array/protocol.py:120-171 | Framing an accepted packet's header and payload again gives the packet back if and only if its reserved word is zero, the one field nobody checks. |
| `Protocol.PacketToSamples` | apps/laptop/shruti_array/ingest/websocket_server.py:230-243 | Samples come out exactly for packets that verify, as many as the header announces. |
| `Protocol.DecodeEncoded` | apps/laptop/shruti_array/ingest/websocket_server.py:235-242 | Decoding the two's complement little-endian bytes of any 16-bit numbers gives each number over 32768. |
| `Protocol.EveryPayloadIsEncoded` | apps/laptop/shruti_array/ingest/websocket_server.py:235-242 | Conversely every even payload is the encoding of 16-bit numbers and decodes to them. |
| `Protocol.FramedSamples` | apps/laptop/shruti_array/protocol.py:120-152 | Samples framed by a phone come out of the packet as they went in, for all field values that can be framed. |
| `WireExample.HeaderOnTheWire` | apps/laptop/shruti_array/protocol.py:80-92 | Where each field of every header is, byte by byte: magic, version, type code, flags, phone id, then each number's bytes from the least significant up, at offsets 8, 12, 16, 18 and 22. |
| `WireExample.RejectionReason` | apps/laptop/shruti_array/protocol.py:95-171 | The error of every packet, byte by byte: the first of length under 34, magic, version, type, sample count above 16384, announced length and checksum that is wrong. |
| `WireExample.FramingError` | apps/laptop/shruti_array/protocol.py:120-152 | The error of every call of the framer likewise, and the length of what it makes. |
| `WireExample.PacketExample` | apps/laptop/shruti_array/protocol.py:120-152 | One whole packet of 36 bytes written out: a chirp recording of the sample -2, checksum included. |
| `ErrorDetection.ChecksumIffResidue` | apps/laptop/shruti_array/protocol.py:155-171 | The stored checksum matches the body if and only if the register run over body and checksum together ends in one fixed residue. |
| `ErrorDetection.BurstDetected` | apps/laptop/shruti_array/protocol.py:155-171 | Every corruption confined to 32 consecutive bits of an accepted packet of any length, across header, payload and checksum alike, is rejected. |
| `ErrorDetection.OddErrorsDetected` | apps/laptop/shruti_array/protocol.py:155-171 | Every corruption that flips an odd number of bits anywhere in an accepted packet is rejected. |
| `RegisterOrder.SingleBitReturns` | apps/laptop/shruti_array/protocol.py:184-194 | A single bit in the register is back in its place after 2^31 - 1 shifts, and after no fewer. |
| `ErrorDetection.FewErrorsDetected` | apps/laptop/shruti_array/protocol.py:155-171 | Every corruption of one, two or three bits of an accepted packet is rejected, wherever the bits are and however far apart. |
| `KotlinProtocol.BuildTable` | apps/android/protocol/src/main/kotlin/dev/shruti/protocol/Protocol.kt:40-51 | The port's table of signed Ints holds the same 256 entries. |
| `KotlinProtocol.WideningIsMasked` | apps/android/protocol/src/main/kotlin/dev/shruti/protocol/Protocol.kt:57 | The sign bits that widening a negative byte adds never reach the table index. |
| `KotlinProtocol.Crc32cSigned` | apps/android/protocol/src/main/kotlin/dev/shruti/protocol/Protocol.kt:53-61 | The port's loop over signed bytes returns the same bit-serial checksum. |
| `KotlinProtocol.ByteBuffer.PutLittleEndian` | apps/android/protocol/src/main/kotlin/dev/shruti/protocol/Protocol.kt:89-94 | The buffer's multi-byte puts append the value's bytes, lowest first, and move the position by the width. |
| `KotlinProtocol.Pack` | apps/android/protocol/src/main/kotlin/dev/shruti/protocol/Protocol.kt:82-96 | The sequence of buffer puts fills the 30 bytes with the header layout. |
| `KotlinProtocol.FramePacketArray` | apps/android/protocol/src/main/kotlin/dev/shruti/protocol/Protocol.kt:131-161 | The framer run on arrays, with the buffer puts and the signed checksum loop, returns what the framing function says, errors included. |
| `KotlinProtocol.VerifyPacketArray` | apps/android/protocol/src/main/kotlin/dev/shruti/protocol/Protocol.kt:163-182 | So does the verifier, on a copy of the covered bytes. |
| `KotlinProtocol.PayloadArray` | apps/android/protocol/src/main/kotlin/dev/shruti/protocol/Protocol.kt:184-190 | So does the payload extraction. |
| `KotlinProtocol.SameBytes` | apps/android/protocol/src/main/kotlin/dev/shruti/protocol/Protocol.kt:131-161 | For each of the three packet types and all other arguments, framing in Kotlin gives byte for byte (or error for error) what Python gives for the unsigned values. |
| `KotlinProtocol.ParsersAgree` | apps/android/protocol/src/main/kotlin/dev/shruti/protocol/Protocol.kt:103-128 | Both parsers accept the same bytes, fail with the same error, and return the same header with sequence, rate and timestamp read as two's complement. |
| `KotlinProtocol.VerifiersAgree` | apps/android/protocol/src/main/kotlin/dev/shruti/protocol/Protocol.kt:163-190 | Both verifiers accept the same packets, fail with the same error and pay out the same bytes. |
| `KotlinProtocol.FrameThenVerify` | apps/android/protocol/src/main/kotlin/dev/shruti/protocol/Protocol.kt:131-182 | A framed packet verifies back to its fields if the type's low byte is 1, 2 or 3; otherwise the port frames a packet that its own verifier refuses. |
| `Lfsr.OutputsIdentify` | apps/laptop/shruti_array/sync/chirp.py:49-52 | Sixteen successive output bits determine the register state. |
| `Lfsr.Characteristic` | apps/laptop/shruti_array/sync/chirp.py:50-51 | Sixteen steps equal the sum of the states at taps 0, 2, 3 and 5: the recurrence of the feedback polynomial. |
| `Lfsr.FullCycle` | apps/laptop/shruti_array/sync/chirp.py:49-51 | From every state, 65535 steps return to it. |
| `Lfsr.NoShortCycle` | apps/laptop/shruti_array/sync/chirp.py:49-51 | No nonzero state returns after 65535 divided by any of its prime factors 3, 5, 17 and 257. |
| `Lfsr.MaximalLength` | apps/laptop/shruti_array/sync/chirp.py:43-53 | From every nonzero state the first return is after exactly 65535 steps. |
| `Chirp.LfsrSequence` | apps/laptop/shruti_array/sync/chirp.py:43-53 | The loop fills every position with the chip of the state one step further, starting from the masked seed or 0xACE1. |
| `Chirp.NeverZero` | apps/laptop/shruti_array/sync/chirp.py:49-51 | The register never reaches the all-zero state. |
| `Chirp.FirstChips` | apps/laptop/shruti_array/sync/chirp.py:43-53 | The first 15 chips of any seed are the bits 1 to 15 of its starting state. |
| `Chirp.DefaultChips` | apps/laptop/shruti_array/sync/chirp.py:43-53 | Of the chips of the seed 0xACE1 the fourth is -1 and the fifth is +1. |
| `Chirp.SeedsIdentify` | apps/laptop/shruti_array/sync/chirp.py:43-53 | Seeds equal modulo 65536 give the same chips; seeds that differ there, and are not zero there, differ within the first 16 chips; a seed that is zero there gives the chips of 0xACE1. |
| `Chirp.OrbitInjective` | apps/laptop/shruti_array/sync/chirp.py:43-53 | No state comes twice within one period. |
| `Chirp.EveryStateVisited` | apps/laptop/shruti_array/sync/chirp.py:43-53 | Every nonzero 16-bit state is visited within one period of every seed. |
| `Chirp.ChipsRepeat` | apps/laptop/shruti_array/sync/chirp.py:43-53 | For every seed the chips repeat after 65535. |
| `Chirp.WindowsDistinct` | apps/laptop/shruti_array/sync/chirp.py:43-53 | Two 16-chip windows starting less than a period apart differ, so 16 chips locate the position in the sequence. |
| `Chirp.Balanced` | apps/laptop/shruti_array/sync/chirp.py:43-53 | Over one period the +1 chips outnumber the -1 chips by exactly one. |
| `Chirp.TwoValued` | apps/laptop/shruti_array/sync/chirp.py:43-53 | Of the bare chip sequence over one whole period: the chips correlate with themselves at 65535 in place and at -1 at every other shift. |
| `Correlation.NextPow2Loop` | apps/laptop/shruti_array/sync/correlation.py:97-101 | The doubling loop computes the padded length. |
| `Correlation.NextPow2Least` | apps/laptop/shruti_array/sync/correlation.py:97-101 | That length is the least power of two not below its argument. |
| `Correlation.WindowLag` | apps/laptop/shruti_array/sync/correlation.py:104-114 | The copy equals the input with exactly the lags beyond max_lag on both sides zeroed, and the input array is untouched. |
| `Correlation.WindowedByLag` | apps/laptop/shruti_array/sync/correlation.py:104-114 | For a max_lag of zero or more an entry is kept exactly when the absolute value of its signed lag is at most max_lag. |
| `Correlation.WindowRespectedIff` | apps/laptop/shruti_array/sync/correlation.py:43-52 | For all inputs and any max_lag of zero or more: the offset keeps to max_lag exactly when something inside the window is positive, or zero at a lag from 0 to max_lag, or there is nothing outside; otherwise the offset is -(max_lag + 1). |
| `Correlation.OutsideWindowExample` | apps/laptop/shruti_array/sync/correlation.py:43-52 | Reference [1], recording [-1] and max_lag 0 give the offset -1. |
| `Correlation.ParabolicBound` | apps/laptop/shruti_array/sync/correlation.py:78-85 | At a sample no smaller than its neighbours the parabolic correction is at most one half. |
| `Correlation.RefineExact` | apps/laptop/shruti_array/sync/correlation.py:72-94 | The refined offset in terms of the integer one, for every peak position: equal, or one closer to zero depending on the correction's sign; at the middle index the sign flips when the correction is positive. |
| `Correlation.SubSampleIsSafe` | apps/laptop/shruti_array/sync/correlation.py:55-94 | For all nonempty inputs, with or without a lag window, the refined offset has the integer one's sign and its magnitude or one less, if and only if the peak is not inside the array at its middle with a positive correction; there it is n/2 - 1 against -n/2. |
| `Correlation.SignChangeExample` | apps/laptop/shruti_array/sync/correlation.py:86-93 | Inputs that reach the exception: for reference [0, -0.5, 1] and recording [1] the offsets are -2 and 1. |
| `DelayRecovery.AutoMaximal` | apps/laptop/shruti_array/sync/correlation.py:38-48 | With enough padding, the circular correlation of a nonzero reference with any other shift of itself is strictly below its energy. |
| `DelayRecovery.StrictPeak` | apps/laptop/shruti_array/sync/correlation.py:38-48 | The correlation with a scaled, delayed copy has one strict positive maximum, at the delay's circular index. |
| `DelayRecovery.DelayRecovered` | apps/laptop/shruti_array/sync/correlation.py:36-52 | For every max_lag, negative ones included, the recovered offset is the delay if and only if twice the delay is below the padded length and the window keeps the delay's index: a longer delay aliases. |
| `DelayRecovery.DelayFound` | apps/laptop/shruti_array/sync/correlation.py:36-52 | Without a window the offset is the delay while that is under half the padded length n, and the delay minus n from there on. |
| `DelayRecovery.AliasExample` | apps/laptop/shruti_array/sync/correlation.py:36-52 | A delay that aliases: a one-sample reference delayed by 4 comes back as -4. |
| `DelayRecovery.SubSampleRecovered` | apps/laptop/shruti_array/sync/correlation.py:55-94 | For every max_lag, negative ones included, exactly when the refined search returns the delay: as the integer search does, except next to the window's edge, where one neighbour of the peak is cleared. A delay of two or more on the edge then comes out one short exactly when the reference's correlation with itself one sample away pulls that way past the flatness test, and a negative bound can pull the next larger place back onto a delay just outside. |
| `EarlyRecovery.StrictEarlyPeak` | apps/laptop/shruti_array/sync/correlation.py:38-48 | With the signal d places later in the reference than in the recording, the correlation has one strict positive maximum, at index d. |
| `EarlyRecovery.EarlyFound` | apps/laptop/shruti_array/sync/correlation.py:36-52 | Without a window the offset is then -d while 2 d is at most the padded length n, and n - d beyond. |
| `EarlyRecovery.EarlyRecovered` | apps/laptop/shruti_array/sync/correlation.py:36-52 | Under any window the offset is -d exactly when 2 d is at most n and the window keeps lag d, or d is the first lag it clears and nothing it keeps is preferred to that zero. |
| `TransportClient.Client.Send` | apps/android/app/src/main/kotlin/dev/shruti/transport/TransportClient.kt:86-117 | Without interference: a full queue loses its oldest packet to the newest, one drop is counted, and before start nothing happens. |
| `TransportClient.Client.SendOldest` | apps/android/app/src/main/kotlin/dev/shruti/transport/TransportClient.kt:119-145 | The sender takes the oldest packet whatever becomes of it, counts it as sent when the call raises nothing, even if the socket refuses it, and resets or doubles the backoff. |
| `TransportClient.Accounting` | apps/android/app/src/main/kotlin/dev/shruti/transport/TransportClient.kt:86-145 | In every interleaving of any number of senders with the sender thread: at most 256 are queued, every issued packet is in exactly one of queue, taken, shed, lost or a caller's hands, and the drop counter lags the drops by exactly the increments still owed. |
| `TransportClient.Quiescent` | apps/android/app/src/main/kotlin/dev/shruti/transport/TransportClient.kt:98-108 | When no send is in progress the counter equals shed plus lost, and every packet is queued, taken, shed or lost, with the right multiplicity. |
| `TransportClient.AcceptedGrows` | apps/android/app/src/main/kotlin/dev/shruti/transport/TransportClient.kt:98-108 | Each step either leaves the accepted order (removed, then queue) alone or appends one packet to it, and removals are never taken back. |
| `TransportClient.FirstInFirstOut` | apps/android/app/src/main/kotlin/dev/shruti/transport/TransportClient.kt:98-108 | In every interleaving the removed packets followed by the queue are the accepted packets in acceptance order. |
| `TransportClient.SingleThreadKeepsNewest` | apps/android/app/src/main/kotlin/dev/shruti/transport/TransportClient.kt:98-108 | With one producer the queue always has room when the second offer comes, so it cannot fail. |
| `TransportClient.NewestCanBeLost` | apps/android/app/src/main/kotlin/dev/shruti/transport/TransportClient.kt:98-108 | With two or more producers there is a run whose second offer of the packet issued last fails: that packet is lost and not in the queue, while an older one is. |
| `TransportClient.LossIffContention` | apps/android/app/src/main/kotlin/dev/shruti/transport/TransportClient.kt:98-108 | Some run loses the packet issued last if and only if there are at least two producers. |
| `TransportClient.UninterruptedSend` | apps/android/app/src/main/kotlin/dev/shruti/transport/TransportClient.kt:98-108 | The single-call contract is a run of the interleaving model: the steps of one send, run together, do to the queue and counter what the method does. |
| `TransportClient.UninterruptedTurn` | apps/android/app/src/main/kotlin/dev/shruti/transport/TransportClient.kt:119-145 | So is the sender's turn: its steps, run together, send the oldest packet and set the backoff to 500, or fail and double it up to 8000. |
| `TransportClient.BackoffOnSchedule` | apps/android/app/src/main/kotlin/dev/shruti/transport/TransportClient.kt:119-161 | In every interleaving, resets on open included, the backoff is 500, 1000, 2000, 4000 or 8000 ms. |
| `TransportClient.BackoffFormula` | apps/android/app/src/main/kotlin/dev/shruti/transport/TransportClient.kt:135 | After k failures the backoff is 500 * 2^k ms, capped at 8000 from the fourth on. |
| `WebSocketFrames.EncodeBinaryFrame` | apps/android/app/src/main/kotlin/dev/shruti/transport/InboundWebSocketServer.kt:303-331 | The three array-filling branches produce the RFC 6455 section 5.2 frame of the payload. |
| `WebSocketFrames.HeaderExamples` | apps/android/app/src/main/kotlin/dev/shruti/transport/InboundWebSocketServer.kt:303-331 | One header of each length form written out: lengths 5, 300 and 70000. |
| `WebSocketFrames.DecodeEncoded` | apps/android/app/src/main/kotlin/dev/shruti/transport/InboundWebSocketServer.kt:303-331 | A section 5.2 parser (FIN, reserved bits, opcode, mask, three length forms that must be minimal) reads an encoded frame back as a final unmasked binary one and leaves what follows untouched. |
| `WebSocketFrames.DecodedIsEncoded` | apps/android/app/src/main/kotlin/dev/shruti/transport/InboundWebSocketServer.kt:303-331 | Every byte string that parser reads as a final unmasked binary frame is the encoding of its payload, followed by the rest. |
| `WebSocketFrames.StreamRoundTrip` | apps/android/app/src/main/kotlin/dev/shruti/transport/InboundWebSocketServer.kt:303-331 | Concatenated frames of any list of payloads parse to exactly that list of messages with nothing left over. |
| `WebSocketFrames.StreamUnique` | apps/android/app/src/main/kotlin/dev/shruti/transport/InboundWebSocketServer.kt:303-331 | A byte stream that parses is the encoding of the list it parses to, so no two lists share a stream. |
| `WebSocketFrames.CutFrameIncomplete` | apps/android/app/src/main/kotlin/dev/shruti/transport/InboundWebSocketServer.kt:303-331 | A frame cut anywhere is reported incomplete, never misread. |
| `Tracker.ClosestIsNearest` | apps/laptop/shruti_array/tracker.py:74-85 | The search finds a track within the radius if there is one, at the least distance, the last of equals; otherwise none. |
| `Tracker.MultiSpeakerTracker.FindClosest` | apps/laptop/shruti_array/tracker.py:74-85 | The best-so-far loop over the track objects is that search. |
| `Tracker.MultiSpeakerTracker.Prune` | apps/laptop/shruti_array/tracker.py:87-91 | Exactly the tracks seen within the timeout remain, as the same objects in the same order. |
| `Tracker.MultiSpeakerTracker.AssociatePosition` | apps/laptop/shruti_array/tracker.py:64-70 | The observation moves the closest track, or opens one with the next id while there is room, or is ignored. |
| `Tracker.MultiSpeakerTracker.Update` | apps/laptop/shruti_array/tracker.py:56-72 | One whole update of the object state: association when a position is given, then pruning in either case. |
| `Tracker.UpdateKeepsWellFormed` | apps/laptop/shruti_array/tracker.py:56-91 | Every update keeps the track limit, ascending distinct ids below the next id, and histories of at most 64 positions that are empty or end where the track stands; and it leaves no stale track. |
| `Tracker.RunWellFormed` | apps/laptop/shruti_array/tracker.py:98-111 | The same after any sequence of observations fed to a fresh tracker, the absence of stale tracks included. |
| `Tracker.HistoryIsNewestMoves` | apps/laptop/shruti_array/tracker.py:27-36 | In every run a track's history is the newest 64 positions that moved it, oldest first, without the one it opened with. |
| `Tracker.FullIgnores` | apps/laptop/shruti_array/tracker.py:56-72 | With no room and no track in reach an observation is as good as none: the same state results as from a frame without a position, the unstale tracks. |
| `TrackerGeometry.InReachIff` | apps/laptop/shruti_array/tracker.py:74-85 | The squared comparison is the comparison of the Euclidean distance with the radius, for every radius. |
| `TrackerGeometry.OutOfReachStays` | apps/laptop/shruti_array/tracker.py:56-91 | An observation farther than the radius in x alone or in y alone leaves a track of any run as it was, unless it is stale. |
| `TrackerGeometry.SceneMoves` | apps/laptop/shruti_array/tracker.py:56-91 | Moving every observation of a run by one distance-keeping motion moves every track and history by it and changes nothing else. |
| `TrackerGeometry.TurnIsRigid` | apps/laptop/shruti_array/tracker.py:78-82 | Turning the plane keeps the tracker's distances. |
| `TrackerGeometry.ShiftIsRigid` | apps/laptop/shruti_array/tracker.py:78-82 | So does shifting it. |
| `TrackerGeometry.ExchangedScene` | apps/laptop/shruti_array/tracker.py:56-91 | Exchanging x and y in every observation exchanges them in every track and changes nothing else. |
| `SpeakerIdentity.TrackerRefinesIdeal` | apps/laptop/shruti_array/tracker.py:56-91 | When every observation of a recently seen speaker is within the radius of that speaker's latest position and outside the radius of every other recent speaker's, and the recent speakers leave room, the tracker behaves exactly as one that is told who is speaking. Speakers may walk any distance. |
| `SpeakerIdentity.KeepingPlacesSeparates` | apps/laptop/shruti_array/tracker.py:56-91 | Speakers who each keep within the radius of all their own positions and outside that of everybody else's, at most as many as tracks, meet that condition. |
| `SpeakerIdentity.TrackIffRecent` | apps/laptop/shruti_array/tracker.py:56-91 | On separated observations the tracker has a track standing at a speaker's latest position if and only if that observation is within the timeout; there is only one such track, and it carries that observation's time. |
| `SpeakerIdentity.TracksAreRecentSpeakers` | apps/laptop/shruti_array/tracker.py:56-91 | Over every separated run the live tracks are in bijection with the recently seen speakers, each at its speaker's latest position and time. |
| `SpeakerIdentity.SameIdIffNoGap` | apps/laptop/shruti_array/tracker.py:56-91 | On separated observations the tracker's track of a speaker after k updates and its track of that speaker now have the same id if and only if the speaker was recent at every update in between. |
| `SpeakerIdentity.GapRenewsId` | apps/laptop/shruti_array/tracker.py:56-91 | If the speaker was gone at some update in between, the tracker's present track of that speaker has a strictly larger id. |
| `PhoneConnection.Connection.NotePacket` | apps/laptop/shruti_array/ingest/websocket_server.py:81-84 | Appending and popping from the front leaves the arrivals within the window before now. |
| `PhoneConnection.Connection.PutNewest` | apps/laptop/shruti_array/ingest/websocket_server.py:211-220 | The nested tries end with the packet last in the queue, at the price of the oldest when 64 were queued. |
| `PhoneConnection.WindowExact` | apps/laptop/shruti_array/ingest/websocket_server.py:81-84 | For nondecreasing times the kept times are exactly the arrivals at most two seconds old. |
| `PhoneConnection.WindowIsReplay` | apps/laptop/shruti_array/ingest/websocket_server.py:81-84 | A connection's window depends on its arrival times only, refused packets included. |
| `PhoneConnection.LimiterVerdict` | apps/laptop/shruti_array/ingest/websocket_server.py:81-87 | A packet is refused if and only if more than 400 arrivals, itself included, lie in the two seconds up to it. |
| `PhoneConnection.AcceptedIff` | apps/laptop/shruti_array/ingest/websocket_server.py:193-217 | Over any history: a packet is accepted exactly when at most 400 arrivals lie in the two seconds up to it and its sequence number exceeds every accepted one; what it skips is counted, it goes last in the queue, and a packet not accepted changes only the arrival times. |
| `PhoneConnection.InSequenceAllAccepted` | apps/laptop/shruti_array/ingest/websocket_server.py:193-217 | A connection whose packets arrive numbered 0, 1, 2 and so on under the limit accepts all of them and counts none missing, whatever is read in between. |
| `PhoneConnection.RateBound` | apps/laptop/shruti_array/ingest/websocket_server.py:81-87 | At most 400 packets pass the limiter in any closed two-second interval, wherever it starts. |
| `PhoneConnection.UnreadQueue` | apps/laptop/shruti_array/ingest/websocket_server.py:207-220 | A queue that nobody reads holds the newest 64 accepted packets, or all of them if there are fewer. |
| `PhoneConnection.ConnectionAccounting` | apps/laptop/shruti_array/ingest/websocket_server.py:196-220 | In every state of a connection: sequence + 1 = dropped + accepted; removed followed by queue is the accepted log; at most 64 are queued; accepted sequence numbers strictly increase. |
| `PacketServer.PacketServer.Connect` | apps/laptop/shruti_array/ingest/websocket_server.py:179-195 | First contact creates and registers one connection and sets the gauge to the number of connections; a known phone finds its own. |
| `PacketServer.PacketServer.Admit` | apps/laptop/shruti_array/ingest/websocket_server.py:196-220 | The locked body and the queue put act on that one connection and on the counters, and leave every other connection alone. |
| `PacketServer.PacketServer.OnPacket` | apps/laptop/shruti_array/ingest/websocket_server.py:151-221 | The whole packet handler, from size check to queue, as one step on the server state. |
| `PacketServer.PacketServer.Close` | apps/laptop/shruti_array/ingest/websocket_server.py:132-149 | A closing socket removes the connection it registered last, if it is still there, and refreshes the gauge. |
| `ServerRuns.ConnectionsAccounted` | apps/laptop/shruti_array/ingest/websocket_server.py:151-221 | In every interleaving of packets, closes and queue reads on any sockets, every live connection satisfies the per-connection accounting, and everything it accepted is a verified packet of its phone. |
| `ServerRuns.RemovedIncrease` | apps/laptop/shruti_array/ingest/websocket_server.py:201-220 | Whatever leaves a connection's queue, consumed or shed, verifies, and sequence numbers strictly increase along the way. |
| `ServerRuns.CountersBalance` | apps/laptop/shruti_array/ingest/websocket_server.py:160-176 | In every reachable state received = rejected + decoded + silently ignored duplicates, checksum failures are at most the rejections, and the gauge is the number of connections. |
| `ServerRuns.CountersExact` | apps/laptop/shruti_array/ingest/websocket_server.py:160-206 | In every run each global counter is the exact number of packets, bytes or skipped sequence numbers it names, judged packet by packet: bad size, malformed, refused, duplicate or accepted. |
| `ServerRuns.RateBoundInRuns` | apps/laptop/shruti_array/ingest/websocket_server.py:81-87 | With a nondecreasing clock the 400-packet bound holds for every connection of every run, and its window is that of the limiter. |
| `ServerRuns.OwnershipHolds` | apps/laptop/shruti_array/ingest/websocket_server.py:126-149 | In every run a phone has a connection exactly when an open socket registered it or a closed socket left it behind, and only for one such reason. |
| `ServerRuns.EmptyIffOnePhoneEach` | apps/laptop/shruti_array/ingest/websocket_server.py:134-149 | With all sockets closed the registry is empty if and only if no socket ever registered two phones; otherwise it holds exactly what was left behind. |
| `ServerRuns.LeftForGood` | apps/laptop/shruti_array/ingest/websocket_server.py:134-149 | A connection left behind stays in the registry through every later event. |
| `ServerRuns.LeakExample` | apps/laptop/shruti_array/ingest/websocket_server.py:134-149 | A concrete run: one socket relays packets of phones 1 and 2 and closes, and phone 1 remains connected with no socket open. |
| `ServerRuns.ConnectionsAreOpenSockets` | apps/laptop/shruti_array/ingest/websocket_server.py:126-149 | With one phone per socket the connections are in bijection with the open sockets that registered, and closing every socket empties the registry and zeroes the gauge. |
| `PhoneRuns.ConnectionIsReplay` | apps/laptop/shruti_array/ingest/websocket_server.py:151-221 | In every run of the server a phone's live connection is the replay of its own arrivals and reads since it was opened: no other phone or socket matters to it. |
| `PhoneRuns.ConnectionIdentity` | apps/laptop/shruti_array/ingest/websocket_server.py:185-192 | It keeps the phone id and the sample rate of the packet that opened it. |
| `PhoneRuns.InOrderAllAccepted` | apps/laptop/shruti_array/ingest/websocket_server.py:151-221 | In any run with a clock that does not go back, a phone whose verified packets arrive numbered from 0, never more than 400 in two seconds, on sockets that stay open, has exactly these accepted and none counted missing. |
| `DspLoop.StreamAligner.Register` | apps/laptop/shruti_array/sync/alignment.py:57-63 | A new phone goes last in the order and becomes master if there is none; a known phone changes nothing. |
| `DspLoop.StreamAligner.Unregister` | apps/laptop/shruti_array/sync/alignment.py:101-113 | The phone leaves the order and the others keep theirs; the result says whether it was there. The master id is not cleared. |
| `DspLoop.WithoutKeepsOrder` | apps/laptop/shruti_array/sync/alignment.py:101-113 | The place of the phone that leaves is closed up and nothing else moves. |
| `DspLoop.DspLoop.BufferPcm` | apps/laptop/shruti_array/dsp_loop.py:130-143 | The phone's buffer becomes the newest part, at most one second, of old buffer and samples together. |
| `DspLoop.DspLoop.DropPhone` | apps/laptop/shruti_array/dsp_loop.py:145-153 | Buffer and registration of the phone go, whether or not they existed; the rest stays. |
| `DspLoop.DspLoop.DrainQueue` | apps/laptop/shruti_array/dsp_loop.py:198-215 | At most `max` packets leave the front of the queue; those that verify are fed in order and counted, the others are skipped. |
| `DspLoop.DspLoop.PopFromQueues` | apps/laptop/shruti_array/dsp_loop.py:169-216 | All queues in turn; phones unknown to the aligner keep theirs. |
| `DspLoop.CountedAreVerified` | apps/laptop/shruti_array/dsp_loop.py:198-216 | The count returned is the number of packets taken that verify. |
| `DspLoop.UnknownUntouched` | apps/laptop/shruti_array/dsp_loop.py:189-197 | Draining never touches the buffer of a phone the aligner does not know. |
| `DspLoop.DspLoop.AlignedWindow` | apps/laptop/shruti_array/dsp_loop.py:218-236 | If every registered phone has a window: the newest window of each in registration order, and each buffer loses its oldest; otherwise nothing changes. |
| `DspLoop.DspLoop.Step` | apps/laptop/shruti_array/dsp_loop.py:238-354 | Counters, window and beamformer of one iteration: not ready and nothing but the call is counted, a frame, or the exception raised once the window is taken, without phones and at sample rate 0. |
| `StreamRuns.DrainIsPop` | apps/laptop/shruti_array/dsp_loop.py:169-216 | Draining queues in the run model is feeding their decoded packets one by one. |
| `StreamRuns.BuffersDescribed` | apps/laptop/shruti_array/dsp_loop.py:138-153 | After any schedule of registering, feeding, draining, stepping and dropping: a buffer is a suffix of what was delivered, at most one second long, and delivered = buffered + need * windows + clipped. |
| `StreamRuns.FramesAreNewest` | apps/laptop/shruti_array/dsp_loop.py:224-236 | A frame produced after any schedule carries, for each phone, exactly its newest `need` delivered samples. |
| `StreamRuns.LoopCounters` | apps/laptop/shruti_array/dsp_loop.py:249-345 | After any schedule the loop's counters are the number of steps and the number of steps that yielded a frame. |
| `StreamRuns.GaplessIffInStep` | apps/laptop/shruti_array/dsp_loop.py:218-236 | A phone's windows lie end to end in its stream if and only if each was taken from a buffer of exactly one window with nothing clipped before; joined they are then a prefix of the stream. |
| `StreamRuns.BacklogRepeats` | apps/laptop/shruti_array/dsp_loop.py:218-236 | Two steps with nothing fed in between: the second yields a frame if and only if every phone had two windows buffered, and it repeats the first frame's channels. |
| `StreamRuns.BacklogExample` | apps/laptop/shruti_array/dsp_loop.py:218-236 | Samples that are never emitted: with a one-sample window, feeding 1 and 2 and stepping twice emits 2 and 2. |
| `Pipeline.DeliveredIsTaken` | apps/laptop/shruti_array/dsp_loop.py:169-216 | In every run that mixes packets, closing sockets, queue visits, registrations, steps and drops: what a phone was delivered is the decoded packets taken from its connections in the order taken, with strictly increasing sequence numbers within each connection; the buffer is the newest part of it; and what was taken from the live connection is among what left its queue. |
| `Pipeline.WholeStreamIff` | apps/laptop/shruti_array/ingest/websocket_server.py:201-220 | What was taken from the live connection is the sender's whole stream up to the last sequence number accepted if and only if no gap was counted and everything accepted was taken; if the phone has had one connection only, its delivered samples are then that stream decoded. |
| `Pipeline.VisitTakes` | apps/laptop/shruti_array/dsp_loop.py:198-216 | One visit takes the first `max` packets of a registered phone's queue, or all if there are fewer, and delivers them decoded. |
| `Pipeline.ServerIsRun` | apps/laptop/shruti_array/ingest/websocket_server.py:151-221 | The server inside the pipeline is always in the state of a run of the server alone. |
| `Pipeline.CapturedIsDelivered` | apps/laptop/shruti_array/dsp_loop.py:169-216 | End to end: a phone frames 16-bit samples, its packets arrive in order under the limit on sockets that stay open, among any other traffic; once everything accepted was taken, the loop was delivered exactly the captured samples. |
| `Recorder.RecordedOneStepDown` | apps/laptop/shruti_array/recorder.py:60-69 | Recording a received 16-bit sample n / 32768 stores n moved one step towards zero, and zero as zero. |
| `Recorder.Pcm16Written` | apps/laptop/shruti_array/recorder.py:60-69 | A file has one sample for each of the signal's, in order: 32767 times it cut towards zero, full scale beyond 1, and one step towards zero for a received 16-bit sample. |
| `Recorder.SortedIdsShape` | apps/laptop/shruti_array/recorder.py:108-114 | For distinct ids, sorting and deduplicating keeps their number, and keeps an ascending list as it is. |
| `Recorder.LoopRecorder.Record` | apps/laptop/shruti_array/recorder.py:121-144 | The first channels of a frame go to the first phones by position, the beamformed signal is always kept, and after finalising the call fails and changes nothing. |
| `Recorder.LoopRecorder.Finalise` | apps/laptop/shruti_array/recorder.py:146-179 | The first call writes one file per phone in ascending order and the beamformed one last, a single zero sample where nothing was recorded; later calls write nothing and return the same paths. |
| `Recorder.TapeHoldsColumns` | apps/laptop/shruti_array/recorder.py:138-143 | After any frames the i-th smallest phone id holds the i-th channels of the frames that have one, in order. |
| `Recorder.WrittenOnce` | apps/laptop/shruti_array/recorder.py:121-179 | Over any sequence of record and finalise calls the disk holds nothing before the first finalise and afterwards exactly one file set, made of the frames recorded before it. |
| `Recorder.StemsDiffer` | apps/laptop/shruti_array/recorder.py:167-174 | No two files of a run share a name, whatever the run id. |
| `Lockstep.RunDemo` | apps/laptop/shruti_array/demo.py:52-150 | The demo's loops over rounds, frames and phones, on the aligner, loop and recorder objects, leave on disk the files of the run function, which for sources of whole frames are those of `FilesHold`. |
| `Lockstep.RunRecorded` | apps/laptop/shruti_array/demo.py:105-112 | With a positive sample rate and a window that fits the buffer, the i-th smallest phone id's recording is the whole stream of the i-th registered phone and the beamformed track is as long; otherwise nothing is ever recorded. |
| `Lockstep.LosslessIff` | apps/laptop/shruti_array/demo.py:105-112 | Every phone's recorded audio is that phone's own stream, for all streams, if and only if the sample rate is positive, the window fits the one-second buffer and the phones were registered in ascending order. |
| `Lockstep.FilesHold` | apps/laptop/shruti_array/recorder.py:146-179 | What is on disk after the demo: a file per phone with its name and rate whose sample k is sample k mod 960 of the phone's frame k / 960 as stored in 16 bits, then the beamformed signal of all windows likewise; one silent sample each if nothing was recorded. |
| `FileNames.ReadIntOfText` | apps/laptop/shruti_array/fallback.py:94-96 | Reading back a printed integer, negative ones included, gives the integer. |
| `FileNames.ReadIntBlanks` | apps/laptop/shruti_array/fallback.py:94-96 | White space around an integer and a plus sign before it change nothing. |
| `FileNames.ReadDigitsUnderscore` | apps/laptop/shruti_array/fallback.py:94-96 | A single underscore between digits is skipped; a double one, or one at an end, makes the text no integer. |
| `FileNames.RecorderNameRead` | apps/laptop/shruti_array/fallback.py:91-107 | The recorder's file name of a phone reads back as that phone, unless what precedes the run id's first underscore is an integer, which is then returned. |
| `FileNames.RecorderNameReadIff` | apps/laptop/shruti_array/recorder.py:167 | The recorder's name reads back as the phone id if and only if that part of the run id is no integer or the phone id itself. |
| `FileNames.DefaultRunIdRead` | apps/laptop/shruti_array/recorder.py:49-57 | Names with the default run id always read back as the phone id. |
| `FileNames.BeamformedNameRead` | apps/laptop/shruti_array/recorder.py:174 | The beamformed file belongs to no phone, whatever the run id. |
| `FileNames.AuditNameRead` | apps/android/app/src/main/kotlin/dev/shruti/capture/AuditService.kt:124 | Audit names read back as the phone id for every id and time. |
| `FileNames.ChannelNameRead` | apps/laptop/shruti_array/tools/corpus.py:70 | Corpus names read back as the channel number. |
| `FileNames.BareNameRead` | apps/laptop/shruti_array/fallback.py:108-112 | Names of the form phone<j> read back as j. |
| `FileNames.PhoneStemsDiffer` | apps/laptop/shruti_array/recorder.py:167 | Different phones get different names in the same run. |
| `FileNames.NewestFirstSorts` | apps/laptop/shruti_array/fallback.py:123 | The listing is a permutation of the directory, newest first. |
| `FileNames.ListedAreThePhones` | apps/laptop/shruti_array/fallback.py:116-126 | The listing for a phone holds exactly that phone's files, sorted, so it starts with a newest one. |
| `FileNames.PickMostRecentPerPhone` | apps/laptop/shruti_array/fallback.py:129-144 | One pass picks, for every phone with a file and for no other, a file of maximal modification time, the first of that phone's own listing. |
| `FileNames.RecordingFound` | apps/laptop/shruti_array/fallback.py:129-144 | In a directory holding one recording, the pick finds exactly the recorded phones, each with its own file. |

## Left out

- Correlation.FindOffsetSubSample: float rounding of the parabola and of the transform is not modelled; with exact sums every comparison is exact, including the one against 1e-12.
- DspLoop.DspLoop.AlignedWindow: windows of at least one frame only; the constructor accepts zero or negative frame counts, for which the slices mean something else.
- DspLoop.DspLoop.Step: TDOA estimation, localisation, the tracker call, gauges and subscriber queues inside `step` are not modelled; the beamformer is an arbitrary total function of the channels, so an exception from it is not either. Where the original raises, without phones and at rate 0, the result says so. Negative sample rates are not modelled.
- WebSocketFrames.EncodeBinaryFrame: payloads whose frame would exceed the largest Java array are excluded, since no such array exists.
- TransportClient.Client.SendOldest: whether the send raised an exception is a parameter; connection set-up, reconnecting, interrupts and the broadcast to inbound clients are not modelled.
- Lockstep.RunDemo: the wall-clock loop is a number of rounds, recording is always on and at least one phone takes part; radar rendering and pacing are not modelled, and neither is an interrupt inside a round.
- FileNames.ReadInt: ASCII text only; other Unicode digits and spaces, and the interpreter's limit on very long integers, are not modelled.
- SpeakerIdentity.TrackerRefinesIdeal: assumes that every observation is near its own recent speaker and no other; what happens when two speakers come within the radius of each other is not characterised.
- Sample values: 32-bit float rounding, clipping of NaN, and the wire-level WAV container are not modelled; a file is its name, rate and 16-bit samples.
- GCC-PHAT, delay-and-sum, MVDR, localisation, synthetic scenes and quality metrics: floating-point spectra and numeric solvers.
- `generate_chirp` modulation, the Kotlin chirp renderer, resampling: the two renderers differ, and the rest is array arithmetic.
- Drift estimation and per-phone offsets of the aligner: stored and read back, used by the loop for one gauge only.
- Sockets, WebSocket handshake, PING and PONG, dashboard, metrics rendering, logging, configuration, Android services and UI: input and output around the modelled logic.
- The `remote` and `connected_at_s` fields of a connection, and the packet type of drained packets: recorded or returned but never read by the modelled code.
- Four or more scattered bit errors, other than odd numbers of them and bursts: not examined.
- `WavFileWriter`: it writes a sample count where a byte count belongs, so no reader round trip holds.
- `phone_dialer.py`, the ladder of `next_rung`, `file_drop_check`, the command line, ASR and TTS wrappers: thin or stateless members that would add nothing hard.
