# Gravital Talk: a verified model of the protocol core

Gravital Talk is a push-to-talk audio protocol: a framed UDP packet format, a four-message
handshake, an audio path with forward error correction, a jitter buffer and loss concealment,
and a relay that forwards packets and hands out the floor. This project models the parts of it
that carry the hard guarantees and proves those guarantees for every input and every run.

`dafny verify dfyconfig.toml` checks everything. There is one module per file.

| file | what it models |
|---|---|
| `Words`, `Folds`, `Bits` | wrapping words, big-endian fields, runs as folds, single bits of a 64-bit word |
| `Checksum`, `Packet`, `OddErrors` | CRC-16/CCITT-FALSE bit by bit and by table; packet printer, parser, imperative encoder and decoder; detection of bursts and of odd numbers of flipped bits |
| `JitterBuffer`, `JitterRuns`, `Playout` | the slot ring as a class, the window map it represents, whole runs in unwrapped numbers, draining after each packet |
| `Fec` | XOR parity encoder and decoder classes, recovery of one lost frame |
| `Sending`, `Pipeline`, `AudioPath` | sender with failing sends, lossy network, receiver: the end-to-end theorem and the mutable halves proved against it |
| `Integrity` | what no network can make the receiver deliver |
| `Concealment`, `Listening` | silence for missing frames, and the whole path from captured frames to decoded blocks |
| `Handshake`, `Lifecycle` | the handshake over a lossy, duplicating, reordering network; the session state machine and the race between a handshake and `close()` |
| `Relay`, `RelayRuns` | the router as a class over a table, and every interleaving of datagrams and garbage collection |
| `Stun`, `Loss`, `Fragment`, `Estimators` | the STUN attribute loop, the 64-packet loss window, fragment reassembly, the two integer estimators |

State that the source updates in place is a class whose methods are proved against a function
of the old state; the properties are lemmas about that function over whole runs. Sequence
numbers wrap at 32 bits everywhere, and the run theorems unwrap them. Clock readings, random
values, network answers and the audio decoder's results are parameters.

Some properties hold only under a condition; each has a counterexample and the exact condition,
both ways:

- floor exclusion: the session lifetime exceeds 30 s;
- FEC recovery: the group ends before the sequence counter wraps, which the protocol's window of
  4 always does;
- parity that matches the decoder's groups: each block of four is sent entirely or not at all;
- silence for gaps: no gap follows a frame numbered `u32::MAX`, which doubles as "nothing
  received yet";
- the loss window: jumps below 64, or nothing but the newest packet in the window;
- completing a handshake: the codec the server picks is one the client supports; a common codec
  is not enough;
- closing a plain client handshake: some `close()` returns after the handshake started;
- erasing the keys: no attempt is under way as `close()` begins;
- payloads under their own numbers, on any network: no group with a failed send takes three frames of
  a decoder's group and a fourth from beyond it.

Where comments and code disagree the model follows the code: `total_packets` in the loss
tracker counts duplicates although its comment says unique packets; the jitter estimate is not
shifted although its field is documented as fixed point.

## Model

| member | source | states |
|---|---|---|
| `Checksum.TableStep` | crates/gravital-talk-core/src/checksum.rs:53-63 | for every register and byte, one table lookup equals eight bit-serial steps |
| `Checksum.ShiftIndex` | crates/gravital-talk-core/src/checksum.rs:19-37 | the inner loop of the table builder computes the eight-fold shift of the index |
| `Checksum.BuildTable` | crates/gravital-talk-core/src/checksum.rs:19-37 | all 256 entries are the shifted indices, the property the table step needs |
| `Checksum.CrcStep` | crates/gravital-talk-core/src/packet.rs:106-117 | continuing a CRC by table equals continuing it bit by bit, for every byte string |
| `Checksum.Crc16Table` | crates/gravital-talk-core/src/checksum.rs:53-63 | the table-driven CRC is the bit-serial CRC-16/CCITT-FALSE of every byte string |
| `Checksum.Crc16TwoSegments` | crates/gravital-talk-core/src/checksum.rs:67-78 | the CRC over two segments is the CRC of their concatenation |
| `Checksum.CrcConcat` | crates/gravital-talk-core/src/checksum.rs:67-78 | a CRC may be continued: the CRC of a concatenation is the second part's CRC started from the first's |
| `Checksum.CrcInjective` | crates/gravital-talk-core/src/packet.rs:106-117 | different registers stay different over the same data |
| `Checksum.Shift8IsShifter` | crates/gravital-talk-core/src/checksum.rs:19-37 | eight steps of the polynomial 0x1021 are linear, injective and move the low byte up |
| `Checksum.BurstDetected` | crates/gravital-talk-core/src/packet.rs:106-117 | three bytes that differ in a nonzero pattern of at most 16 consecutive bits give different CRCs from any register |
| `Checksum.CheckValue` | crates/gravital-talk-core/src/checksum.rs:97-100 | the CRC of the nine digits is 0x29B1, the catalogue's check value |
| `Packet.HeaderRoundTrip` | crates/gravital-talk-core/src/header.rs:90-171 | a printed version-1 header parses back to itself, whatever follows it |
| `Packet.HeaderReprint` | crates/gravital-talk-core/src/header.rs:90-171 | a header that parses is reproduced byte for byte by printing |
| `Packet.RoundTrip` | crates/gravital-talk-core/src/packet.rs:55-90 | an encoded packet with version 1 and an allowed payload decodes to the same header and payload |
| `Packet.Reprint` | crates/gravital-talk-core/src/packet.rs:158-194 | any buffer that decodes is reproduced byte for byte by encoding the result |
| `Packet.FieldOffsets` | crates/gravital-talk-core/src/header.rs:153-171 | where each field of a packet is, magic and sizes written out |
| `Packet.PrintDecodesIff` | crates/gravital-talk-core/src/packet.rs:55-90 | a printed packet decodes if and only if its version is 1 and its payload at most 1176 bytes |
| `Packet.ErrorsInOrder` | crates/gravital-talk-core/src/header.rs:90-150 | length, magic, version and reserved bytes are checked in that order |
| `Words.BigEndianOrder` | crates/gravital-talk-core/src/header.rs:153-171 | multi-byte fields have their most significant byte first |
| `Packet.BurstChangesCrc` | crates/gravital-talk-core/src/packet.rs:96-117 | a burst of at most 16 bits anywhere in the covered bytes changes the CRC |
| `Packet.BurstErrorDetected` | crates/gravital-talk-core/src/packet.rs:55-90 | any change of an encoded packet within a burst of at most 16 bits, in header, payload, length or checksum, makes decoding fail |
| `OddErrors.ShiftKeepsParity` | crates/gravital-talk-core/src/checksum.rs:19-37 | a shift of the register keeps the parity of its bits |
| `OddErrors.CrcParity` | crates/gravital-talk-core/src/packet.rs:106-117 | the parity of a CRC is that of its start and of all bytes absorbed, for every byte string |
| `OddErrors.ParsesOnlyEven` | crates/gravital-talk-core/src/packet.rs:55-90 | every buffer that decodes has an even number of one bits |
| `OddErrors.OddErrorDetected` | crates/gravital-talk-core/src/packet.rs:55-90 | flipping any odd number of bits anywhere in an encoded packet makes decoding fail |
| `Packet.EncodeHeader` | crates/gravital-talk-core/src/header.rs:153-171 | writes exactly the header bytes into the caller's buffer, or reports that it is too small and changes nothing |
| `Packet.EncoderChecksum` | crates/gravital-talk-core/src/packet.rs:176-189 | the encoder's two segments plus length tail give the CRC of header, payload and length |
| `Packet.Encode` | crates/gravital-talk-core/src/packet.rs:158-194 | writes exactly the printed packet, or reports the first error that applies |
| `Packet.ComputeChecksum` | crates/gravital-talk-core/src/packet.rs:96-104 | the decoder's three passes give the same CRC |
| `Packet.Decode` | crates/gravital-talk-core/src/packet.rs:55-90 | the imperative decoder computes the parser that `RoundTrip` and `Reprint` are about, errors included |
| `Jitter.WindowSlotsDistinct` | crates/gravital-talk-transport/src/jitter_buffer.rs:101-132 | two sequences of one window never share a slot, across wraparound |
| `Jitter.NoCollision` | crates/gravital-talk-transport/src/jitter_buffer.rs:117-126 | an occupied slot that a window sequence maps to holds that very sequence, so the collision branch is dead |
| `Jitter.OperationsKeepWindow` | crates/gravital-talk-transport/src/jitter_buffer.rs:101-188 | push, pop, skip and deadline pop keep every stored frame under its own sequence and inside the window |
| `Jitter.PushFillsWindow` | crates/gravital-talk-transport/src/jitter_buffer.rs:106-114 | for every k below 2^32, the frame k places past the cursor is stored if and only if k is below the capacity, and nothing else changes |
| `Jitter.PushPrimes` | crates/gravital-talk-transport/src/jitter_buffer.rs:102-104 | an unprimed buffer takes any frame and starts its window there |
| `Jitter.SkipOneMore` | crates/gravital-talk-transport/src/jitter_buffer.rs:174-187 | skipping one place more removes just the frame at the new cursor and moves it by one |
| `Jitter.PushRepresents` | crates/gravital-talk-transport/src/jitter_buffer.rs:128-131 | writing the slot of a window sequence represents adding it to the map |
| `Jitter.PopRepresents` | crates/gravital-talk-transport/src/jitter_buffer.rs:137-156 | clearing the cursor's slot and advancing represents removing it from the map |
| `Jitter.ClearRepresents` | crates/gravital-talk-transport/src/jitter_buffer.rs:174-187 | one turn of the skip loop clears the frame of the passed sequence and no other |
| `Jitter.JitterBuffer.constructor` | crates/gravital-talk-transport/src/jitter_buffer.rs:58-72 | a new buffer represents the empty, unprimed window |
| `Jitter.JitterBuffer.Push` | crates/gravital-talk-transport/src/jitter_buffer.rs:101-132 | accepts exactly the first frame, or one less than the capacity past the cursor, and then the slots represent the map with it added |
| `Jitter.JitterBuffer.Pop` | crates/gravital-talk-transport/src/jitter_buffer.rs:137-156 | returns the frame at the cursor if there is one and moves the window by one, else changes nothing |
| `Jitter.JitterBuffer.Skip` | crates/gravital-talk-transport/src/jitter_buffer.rs:174-187 | forgets exactly the frames passed over and moves the window |
| `Jitter.JitterBuffer.PopWithDeadline` | crates/gravital-talk-transport/src/jitter_buffer.rs:162-170 | pops, or on an expired deadline moves the cursor by one even when nothing is buffered |
| `JitterRuns.StepConserves` | crates/gravital-talk-transport/src/jitter_buffer.rs:101-187 | every arrival and poll keeps conservation: accepted frames not yet passed are exactly those held, passed ones were delivered once and in order |
| `JitterRuns.RunConserves` | crates/gravital-talk-transport/src/jitter_buffer.rs:137-187 | over every run with deadline pops, each accepted frame is delivered or still held, never discarded, deliveries strictly advancing in unwrapped numbers |
| `JitterRuns.ArrivalInWindowKept` | crates/gravital-talk-transport/src/jitter_buffer.rs:101-187 | a frame that arrives for any number from the cursor up to the capacity beyond it is accepted, and in every continuation that number is delivered or still held |
| `JitterRuns.CursorAdvances` | crates/gravital-talk-transport/src/jitter_buffer.rs:162-170 | the cursor moves at least once per expired poll, in every continuation |
| `JitterRuns.DeliveredWithinDeadlines` | crates/gravital-talk-transport/src/jitter_buffer.rs:162-187 | a frame buffered k past the cursor is delivered in every continuation with k + 1 expired polls |
| `JitterRuns.RunLogs` | crates/gravital-talk-transport/src/jitter_buffer.rs:162-187 | over every run, the distance between successive deliveries is one plus the polls that expired with nothing to return in between |
| `JitterRuns.DeliveredArrived` | crates/gravital-talk-transport/src/jitter_buffer.rs:101-156 | over every run each delivered frame is one that arrived |
| `Playout.DrainSettles` | crates/gravital-talk-transport/src/jitter_buffer.rs:137-156 | draining delivers every consecutive frame that is there and stops at the first gap |
| `Playout.PlaysEverything` | crates/gravital-talk-transport/src/jitter_buffer.rs:101-156 | if every frame below n arrives, out of order within its group, a drained buffer delivers 0 to n - 1 once each, in order |
| `Fec.XorInto` | crates/gravital-talk-transport/src/fec.rs:218-223 | byte-wise XOR of the shorter into the longer, the rest unchanged |
| `Fec.ParityGrows` | crates/gravital-talk-transport/src/fec.rs:52-79 | growing the accumulator with zeros and adding a frame gives the parity of the longer group |
| `Fec.Accumulate` | crates/gravital-talk-transport/src/fec.rs:52-63 | starting, extending and XORing the accumulator gives the parity of the group with the new frame |
| `Fec.FecEncoder.constructor` | crates/gravital-talk-transport/src/fec.rs:34-43 | an empty group with a window of at least 2 |
| `Fec.FecEncoder.Push` | crates/gravital-talk-transport/src/fec.rs:52-79 | emits, exactly when the group is full, its base and the XOR of its frames padded to the longest |
| `Fec.OffsetIsRemainder` | crates/gravital-talk-transport/src/fec.rs:121-138 | the offset used in the group base is the remainder by the window |
| `Fec.PushDataStores` | crates/gravital-talk-transport/src/fec.rs:121-138 | every frame goes to its place in the aligned group of its sequence, replacing what was there; a frame of another group clears the old one and its parity |
| `Fec.PushParityStores` | crates/gravital-talk-transport/src/fec.rs:142-149 | a parity is kept with the frames of its own group only |
| `Fec.FecDecoder.StartGroup` | crates/gravital-talk-transport/src/fec.rs:160-165 | forgets the old group |
| `Fec.FecDecoder.PushData` | crates/gravital-talk-transport/src/fec.rs:121-138 | stores the frame in the group its sequence belongs to; the rejecting branch never runs |
| `Fec.FecDecoder.PushParity` | crates/gravital-talk-transport/src/fec.rs:142-149 | stores the parity and returns what recovery makes of the group |
| `Fec.FecDecoder.TryRecover` | crates/gravital-talk-transport/src/fec.rs:167-197 | the gap list and XOR loops compute the recovery function: the one missing place and the parity with the present frames taken out |
| `Fec.FindMissing` | crates/gravital-talk-transport/src/fec.rs:170-176 | the list of gaps in index order |
| `Fec.XorOutPresent` | crates/gravital-talk-transport/src/fec.rs:184-193 | the loop takes every present frame out of the parity |
| `Fec.ReceiveCollects` | crates/gravital-talk-transport/src/fec.rs:121-138 | for every aligned group and arrival order, repetitions included: a group that ends before the wrap holds exactly the frames that arrived, and one that crosses it never holds a frame from behind it |
| `Fec.ResidueIsLostFrame` | crates/gravital-talk-transport/src/fec.rs:167-197 | XORing the present frames out of the parity leaves the missing frame, zero-padded |
| `Fec.RecoversSingleLoss` | crates/gravital-talk-transport/src/fec.rs:121-197 | for every window, aligned base, frame lengths and arrival order, exactly one missing frame is returned with its sequence and bytes, padded to the longest, if and only if the group ends before the counter wraps; otherwise nothing is returned |
| `Fec.RecoversNothingElse` | crates/gravital-talk-transport/src/fec.rs:121-197 | with no frame or several missing nothing is returned, for every aligned group |
| `Fec.TwoBehindWrap` | crates/gravital-talk-transport/src/fec.rs:121-138 | an aligned group that crosses the wrap always has at least two frames behind it, since no window divides 2^32 + 1 |
| `Fec.CrossingGroupRecoversNothing` | crates/gravital-talk-transport/src/fec.rs:121-197 | a group that crosses the wrap is never repaired, whatever arrived |
| `Fec.CrossingGroupLosesFrame` | crates/gravital-talk-transport/src/fec.rs:121-197 | a concrete group of three at 2^32 - 1 whose one lost frame is not returned |
| `Fec.DividingWindowNeverCrosses` | crates/gravital-talk-transport/src/fec.rs:121-138 | with a window that divides 2^32, such as the protocol's 4, no aligned group crosses |
| `Sending.SenderTracks` | crates/gravital-talk-transport/src/session.rs:836-890 | over every stream, failed sends included, the counter counts every frame and the open group is exactly the frames sent since the last parity, numbered by the first |
| `Sending.WireLayout` | crates/gravital-talk-transport/src/session.rs:846-849 | audio plaintext is the number and the payload; parity plaintext is the base, the window and the parity bytes |
| `Sending.SentAudio` | crates/gravital-talk-transport/src/session.rs:836-849 | frame i carries number i modulo 2^32 whatever happened before, and is on the wire exactly when its own send went through |
| `Sending.ParityCovers` | crates/gravital-talk-transport/src/session.rs:884-888 | a parity packet covers exactly the four frames that went out since the last one and is numbered by the first of them |
| `Sending.GroupsAlignedIff` | crates/gravital-talk-transport/src/session.rs:840-888 | every parity matches a group of the decoder if and only if, up to the last parity, each block of four was sent entirely or not at all |
| `Sending.OneFailureMisaligns` | crates/gravital-talk-transport/src/session.rs:840-888 | a concrete stream where one failed send numbers the next parity 1, which is no group of the decoder |
| `Sending.SentParity` | crates/gravital-talk-transport/src/session.rs:884-888 | when no send fails, the last frame of every group of four is followed by the parity of exactly that group |
| `Pipeline.ReadsAudio` | crates/gravital-talk-transport/src/session.rs:1055-1073 | what the receiver reads from an audio plaintext is the frame that was sent |
| `Pipeline.ReadsParity` | crates/gravital-talk-transport/src/session.rs:1083-1113 | what the receiver reads from a parity plaintext is the parity that was sent |
| `Pipeline.ReceiverFactors` | crates/gravital-talk-transport/src/session.rs:1055-1113 | interleaving dispatch with playout equals unpacking all packets first and playing the frames afterwards |
| `Pipeline.EndToEnd` | crates/gravital-talk-transport/src/session.rs:1055-1113 | when no send fails, at most one of five packets per group is lost, survivors come in any order within the group with parity last, and the last few frames arrive, every frame is delivered once, in order, rebuilt ones padded to the group's longest |
| `Pipeline.EndToEndEqualLengths` | crates/gravital-talk-transport/src/session.rs:836-890 | with equal lengths inside each group every delivered payload is the original |
| `Integrity.EveryFrameGenuine` | crates/gravital-talk-transport/src/session.rs:1055-1113 | over every network that loses, repeats and reorders sent packets at will, each frame handed to the jitter buffer carries the payload sent under its number, perhaps padded, unless a failed send lets a group steal a number |
| `Integrity.IntegrityIff` | crates/gravital-talk-transport/src/session.rs:840-888 | that holds for all payloads and all networks if and only if no completed group starts at a group of the decoder, takes three of its frames and ends beyond it |
| `Integrity.AlignedIsNoTheft` | crates/gravital-talk-transport/src/session.rs:840-888 | aligned groups, hence streams without a failed send, meet that condition |
| `Integrity.StolenNumber` | crates/gravital-talk-transport/src/fec.rs:167-197 | with frame 3 failed and the parity overtaking frame 4, the receiver is handed frame 4's payload under number 3 |
| `Integrity.DeliveriesGenuine` | crates/gravital-talk-transport/src/session.rs:1055-1113 | through the jitter buffer too, however it is polled, every delivered frame is genuine |
| `AudioPath.Transmitter.SendAudio` | crates/gravital-talk-transport/src/session.rs:836-890 | the mutable sender emits the packets and reaches the state of the stream model; a failed send uses up its number and leaves the encoder alone |
| `AudioPath.ReceivePath.Dispatch` | crates/gravital-talk-transport/src/session.rs:1055-1113 | the mutable receiver updates decoder and jitter buffer exactly as the stream model, dropping too-short plaintexts |
| `AudioPath.ReceivePath.PopReady` | crates/gravital-talk-transport/src/session.rs:944-985 | popping until nothing is ready returns the drained frames in order and leaves the drained ring |
| `AudioPath.TakeIsPushThenPop` | crates/gravital-talk-transport/src/session.rs:1055-1113 | the model's take step is the class's push followed by pops, delivering the same frames |
| `AudioPath.JitterSlotsAccepted` | crates/gravital-talk-transport/src/session.rs:1328-1331 | the slot count a session asks for is accepted by the buffer if and only if the delay is at most 2048 frames |
| `AudioPath.JitterSlotsLeast` | crates/gravital-talk-transport/src/session.rs:1328-1331 | the slot count is the least power of two that is at least 16 and at least the frame count |
| `Concealment.CodecReceiver.RecvSamples` | crates/gravital-talk/src/codec_session.rs:169-211 | queue first, then the network: the new last sequence, queue and result are those of the call function, error paths included |
| `Concealment.RecvSplits` | crates/gravital-talk/src/codec_session.rs:169-211 | the result and the queue together are what was queued, or the silence and frame that the arrival adds; at most four blocks remain |
| `Concealment.GapFillsWithZeros` | crates/gravital-talk/src/codec_session.rs:182-210 | a frame that skips d numbers comes behind min(d, 4) blocks of zeros of the configured length |
| `Concealment.CallsReturnTheStream` | crates/gravital-talk/src/codec_session.rs:169-211 | for every list of arrivals the first n results are the first n items of the stream, each frame once, with at most four blocks queued |
| `Concealment.StreamIsIdealIff` | crates/gravital-talk/src/codec_session.rs:182-189 | the stream has min(gap, 4) silent blocks before each frame if and only if no gap follows a frame numbered u32::MAX |
| `Concealment.SentinelHidesGap` | crates/gravital-talk/src/codec_session.rs:182-189 | a concrete stream whose gap leaves no silence |
| `Concealment.DeliveriesAreConcealed` | crates/gravital-talk/src/codec_session.rs:169-211 | fed by any jitter-buffer run, each gap is the number of polls that expired with nothing to return between the two deliveries, every skipped number belongs to no accepted frame, and the stream is ideal under the same condition |
| `Listening.ListenerHearsEverything` | crates/gravital-talk/src/codec_session.rs:169-211 | with no failed send and tolerable loss the listener gets the decoding of each original frame once, in order, with no silence, for any stateful decoder |
| `Handshake.DhCommutes` | crates/gravital-talk-transport/src/session.rs:443-450 | both sides compute the same shared secret |
| `Handshake.StepKeeps` | crates/gravital-talk-transport/src/session.rs:378-818 | every message, timeout and retry keeps the invariant that ties packets, keys and attempts to the parties that made them |
| `Handshake.VerifiedTagMatches` | crates/gravital-talk-transport/src/session.rs:650-659 | a client tag that verifies was made by the client the attempt answered, with the same transcript, codec, version and crossed keys |
| `Handshake.ClientAgreement` | crates/gravital-talk-transport/src/session.rs:378-516 | a completed client has one completed server attempt that answered it and derived the same transcript, codec, version and crossed keys; the codec is the one the server's choice gives, it is in both lists, and the version is in range |
| `Handshake.ServerAgreement` | crates/gravital-talk-transport/src/session.rs:520-818 | a completed server stores the mirror image of what the client it answered derived |
| `Handshake.OneCompletionPerClient` | crates/gravital-talk-transport/src/session.rs:682-818 | at most one attempt, over all servers and retries, completes with a given client |
| `Handshake.Agreement` | crates/gravital-talk-transport/src/session.rs:328-374 | among any number of clients, servers and retries: when a client has completed, the server session that answered it has completed with that very attempt and holds the same session id and codec and the two keys crossed, one per direction |
| `Handshake.ExchangeCompletesIff` | crates/gravital-talk-transport/src/session.rs:378-818 | a given client and server can complete with each other in some run if and only if the codec the server picks is one the client supports |
| `Handshake.CommonCodecMayFail` | crates/gravital-talk-transport/src/session.rs:569-577 | a concrete pair with a codec in common that never completes, because the server falls back to its own first codec |
| `Handshake.LosslessExchange` | crates/gravital-talk-transport/src/session.rs:378-818 | from nothing, six steps without loss complete any compatible pair, with the given addresses, preference and codec lists |
| `Handshake.OpenServerCompletes` | crates/gravital-talk-transport/src/session.rs:363-371 | after every run, whatever failed before, an open server that is not done can still complete with any client whose list holds the codec it picks |
| `Handshake.FailedAttempt` | crates/gravital-talk-transport/src/session.rs:650-659 | a wrong session id or tag ends the attempt without a word; an open server waits for a client again, one with a fixed peer gives up |
| `Handshake.FixedPeerOnly` | crates/gravital-talk-transport/src/session.rs:520-545 | a server with a fixed peer answers that peer's hello with its choice of codec and ignores anyone else's |
| `Handshake.ClientRefuses` | crates/gravital-talk-transport/src/session.rs:428-441 | a client answers a hello of version 1 with a supported codec and gives up on any other, and on a confirmation with another session id or tag |
| `Handshake.StrangersIgnored` | crates/gravital-talk-transport/src/session.rs:520-545 | packets from other addresses change nothing on either side |
| `Lifecycle.SessionStateMachine.Transition` | crates/gravital-talk-core/src/session.rs:132-183 | applies the transition table, or reports the refused pair and keeps the state |
| `Lifecycle.OperationalIff` | crates/gravital-talk-core/src/session.rs:132-183 | over every event list a session is operational if and only if a handshake succeeded and no Close, PeerClosed, PeerTimeout or FatalError came after it |
| `Lifecycle.NextByEvent` | crates/gravital-talk-core/src/session.rs:132-183 | what each event does in each state, read by event instead of by state |
| `Lifecycle.EstablishedState` | crates/gravital-talk-core/src/session.rs:132-183 | an established session is Paused exactly when its last Pause was not followed by a Resume, else Active |
| `Lifecycle.LeavesIdleByStart` | crates/gravital-talk-core/src/session.rs:132-183 | a session has left Idle if and only if some start event was fed to it |
| `Lifecycle.SessionStateMachine.CloseTwice` | crates/gravital-talk-transport/src/session.rs:1200-1203 | two Close events in a row take Handshaking, Active, Paused and Closing to Closed and leave every other state as it was |
| `Lifecycle.SessionStateMachine.Restart` | crates/gravital-talk-transport/src/session.rs:363-370 | timeout, reconnect and accept in a row lead to Handshaking from every state but Active, Paused and Closing, which they leave alone; so they reopen a session that close() has closed |
| `Lifecycle.StepKeeps` | crates/gravital-talk-transport/src/session.rs:328-374 | every step of the handshake task and of any close() keeps the invariant linking state, flag and program position |
| `Lifecycle.OpenAndCloseEndClosed` | crates/gravital-talk-transport/src/session.rs:1185-1204 | in every interleaving of handshake_open with any number of close() calls and failed attempts, the session is Closed once all have returned |
| `Lifecycle.OpenLoopInvariant` | crates/gravital-talk-transport/src/session.rs:339-372 | at each loop head and attempt the state is Handshaking, or Closed with the flag set; an error return implies the flag |
| `Lifecycle.CancellationIsPrompt` | crates/gravital-talk-transport/src/session.rs:339-343 | once the flag is set handshake_open returns within four more of its own steps |
| `Lifecycle.OnceEndsClosedIff` | crates/gravital-talk-transport/src/session.rs:268-319 | a plain client handshake and close() end Closed if and only if the handshake failed or some close() returned after it started |
| `Lifecycle.OnceAfterCloseStaysActive` | crates/gravital-talk-transport/src/session.rs:268-319 | a concrete run that ends Active after close() |
| `Lifecycle.CloseErasesKeysIff` | crates/gravital-talk-transport/src/session.rs:1185-1204 | a close() guarantees that the keys are gone once every call has returned, over all interleavings that can follow, if and only if no attempt is under way as it begins (for a plain client handshake, none about to start either) |
| `Lifecycle.KeysOutlive` | crates/gravital-talk-transport/src/session.rs:814-816 | from every state with an attempt under way, whatever other close() calls are in flight, a run continues in which all return and the keys stay set |
| `Lifecycle.ClosedWithKeys` | crates/gravital-talk-transport/src/session.rs:814-816 | a concrete run that ends Closed with keys set, stored after close() had erased them |
| `Lifecycle.CloseAfterReturnErases` | crates/gravital-talk-transport/src/session.rs:1191-1192 | a close() that begins after the handshake has returned guarantees erased keys |
| `Relay.RouteKeeps` | crates/gravital-talk-relay/src/router.rs:114-165 | routing keeps the table invariant: no session 0, bounded sessions, 1 to max(1, max_peers) distinct peers, a holder exactly with a grant time and among the UDP peers |
| `Relay.BroadcastReachesOthers` | crates/gravital-talk-relay/src/router.rs:114-165 | a broadcast lists every other peer exactly once and never the sender |
| `Relay.RegisteredOrDropped` | crates/gravital-talk-relay/src/router.rs:114-165 | a registered sender is the only peer of its session; a dropped one has not joined |
| `Relay.RouteLeavesRest` | crates/gravital-talk-relay/src/router.rs:114-165 | routing leaves other sessions alone, keeps every peer and the floor of its own, notes the time, and adds the sender unless it drops it |
| `Relay.FloorRequestKeeps` | crates/gravital-talk-relay/src/router.rs:204-238 | arbitration keeps the table invariant |
| `Relay.FloorReleaseKeeps` | crates/gravital-talk-relay/src/router.rs:241-260 | release keeps the table invariant |
| `Relay.EvictKeeps` | crates/gravital-talk-relay/src/router.rs:169-188 | garbage collection keeps the table invariant |
| `Relay.EvictKeepsExactly` | crates/gravital-talk-relay/src/router.rs:169-188 | a session survives a collection if and only if a peer is left and it was active less than the lifetime ago; it loses its closed peers and nothing else |
| `Relay.ReleaseExactly` | crates/gravital-talk-relay/src/router.rs:241-260 | a release takes effect for the holder, or for anyone when the floor is free or held for more than 30 s, and otherwise changes nothing |
| `Relay.Router.constructor` | crates/gravital-talk-relay/src/router.rs:95-103 | an empty table with the given limits |
| `Relay.Router.Route` | crates/gravital-talk-relay/src/router.rs:114-165 | the mutable router takes the table's routing step and returns its decision |
| `Relay.Router.FloorRequest` | crates/gravital-talk-relay/src/router.rs:204-238 | the two-phase release-then-grant code computes the arbitration step |
| `Relay.Router.FloorRelease` | crates/gravital-talk-relay/src/router.rs:241-260 | clears the floor only for the holder and tells the other peers |
| `Relay.Router.EvictIdle` | crates/gravital-talk-relay/src/router.rs:169-188 | the retain loop drops exactly the idle and emptied sessions and counts them |
| `RelayRuns.RunKeeps` | crates/gravital-talk-relay/src/router.rs:114-260 | the table invariant holds in every reachable state of every run |
| `RelayRuns.HoldPersists` | crates/gravital-talk-relay/src/router.rs:74-82 | within 30 s only the holder's own release ends a hold, whatever datagram or collection comes |
| `RelayRuns.FloorIsExclusive` | crates/gravital-talk-relay/src/udp.rs:42-99 | over every run with a lifetime above 30 s, between two grants of a session the first holder released or more than 30 s passed |
| `RelayRuns.ExclusiveIffLongLifetime` | crates/gravital-talk-relay/src/router.rs:169-188 | exclusion over all runs holds if and only if the session lifetime exceeds 30 s |
| `RelayRuns.QuickSuccessionGrantsTwice` | crates/gravital-talk-relay/src/router.rs:169-188 | a concrete run that grants twice when the lifetime is short |
| `RelayRuns.GrantTellsEveryone` | crates/gravital-talk-relay/src/udp.rs:42-99 | a grant sends one message per peer: the grant to the requester, taken to the rest |
| `RelayRuns.RequestNotifies` | crates/gravital-talk-relay/src/udp.rs:42-99 | a granted request leaves the requester holding the floor; any other answers at most a denial |
| `RelayRuns.HoldHasGrant` | crates/gravital-talk-relay/src/router.rs:204-260 | every hold found in a run goes back to a grant at its grant time that its address has not released since |
| `RelayRuns.RequestAnswered` | crates/gravital-talk-relay/src/udp.rs:42-99 | over every run a request goes unanswered only when routing drops its sender, is denied only when a grant at most 30 s old is unreleased, and is granted otherwise |
| `RelayRuns.ForwardsToOthers` | crates/gravital-talk-relay/src/udp.rs:103-112 | over every run, a message that is not a floor message goes to every other peer of its session once and to nobody else; from a sender that is no peer it goes nowhere |
| `RelayRuns.ReleaseTellsOthers` | crates/gravital-talk-relay/src/udp.rs:42-99 | over every run, a release that takes effect tells every other peer once, any other nobody |
| `RelayRuns.OnDatagram` | crates/gravital-talk-relay/src/udp.rs:42-112 | the loop body performs the step relation: route before arbitration, floor messages never forwarded |
| `Stun.PaddedRounds` | crates/gravital-talk-transport/src/stun.rs:193-195 | padding rounds up to a multiple of four |
| `Stun.MappedRoundTrip` | crates/gravital-talk-transport/src/stun.rs:229-241 | parsing a printed MAPPED-ADDRESS value gives the address back |
| `Stun.XorMappedRoundTrip` | crates/gravital-talk-transport/src/stun.rs:212-227 | XOR decoding inverts XOR encoding for every address |
| `Stun.XorMappedBytes` | crates/gravital-talk-transport/src/stun.rs:212-227 | for every value, the port is bytes 2 and 3 masked with 21 12 and the address bytes 4 to 7 masked with 21 12 A4 42 |
| `Stun.XorMappedVector` | crates/gravital-talk-transport/src/stun.rs:212-241 | the sample of section 2.2 of RFC 5769: 192.0.2.1, port 32853 |
| `Stun.SelectAnswers` | crates/gravital-talk-transport/src/stun.rs:163-199 | walking any attribute list yields the first valid XOR-MAPPED-ADDRESS, else the last valid MAPPED-ADDRESS, else the fallback |
| `Stun.FindMapped` | crates/gravital-talk-transport/src/stun.rs:163-199 | the loop stays in bounds, ends, and computes the scan that `ScanSelects` relates to the attribute list |
| `Stun.ScanSelects` | crates/gravital-talk-transport/src/stun.rs:163-199 | scanning with a fallback in hand is listing the attributes that fit and then selecting |
| `Stun.ParseBindingResponse` | crates/gravital-talk-transport/src/stun.rs:139-199 | on every buffer, the header checks and the loop give the specified answer |
| `Stun.AttributesRoundTrip` | crates/gravital-talk-transport/src/stun.rs:163-199 | any written attribute list, with any padding bytes and up to three stray bytes, is read back exactly |
| `Stun.ResponseAnswered` | crates/gravital-talk-transport/src/stun.rs:139-199 | a response with any attributes and anything beyond its stated length is answered as `SelectAnswers` says |
| `Stun.LiteralResponse` | crates/gravital-talk-transport/src/stun.rs:139-199 | whole responses spelled out in bytes: type 0101, length, cookie, transaction and one attribute 0020, 0001 or other |
| `Stun.NeverAnswered` | crates/gravital-talk-transport/src/stun.rs:139-161 | a short buffer, another type, a length beyond the buffer, another cookie or another transaction gives no answer |
| `Stun.BuildBindingRequest` | crates/gravital-talk-transport/src/stun.rs:126-134 | the 20 bytes of a bare binding request header |
| `Stun.RequestIsNoResponse` | crates/gravital-talk-transport/src/stun.rs:139-147 | the parser never takes a request for a response |
| `Loss.LossTracker.Record` | crates/gravital-talk-metrics/src/loss.rs:43-78 | first, newer, late and repeated packets each update the tracker as specified |
| `Loss.RecordKeepsIff` | crates/gravital-talk-metrics/src/loss.rs:54-78 | a packet keeps "bit g is set iff high - g was received" if and only if it jumps less than 64, or nothing but the newest was in the window |
| `Loss.RunRefines` | crates/gravital-talk-metrics/src/loss.rs:43-78 | over every run with jumps below 64 the bitmap is the set of received numbers, across wraparound, late and repeated arrivals, and the counters count |
| `Loss.JumpIsNearest` | crates/gravital-talk-metrics/src/loss.rs:53-54 | a packet stands for the number nearest to the newest one with the right low 32 bits |
| `Loss.LossPercentCounts` | crates/gravital-talk-metrics/src/loss.rs:82-92 | the percentage is 100 (64 - received among the last 64) / 64, and 0 before the first packet |
| `Loss.BigJumpMisreports` | crates/gravital-talk-metrics/src/loss.rs:56-64 | a concrete jump of 64 after which a lost packet is reported received |
| `Fragment.EncodeHeader` | crates/gravital-talk-core/src/fragment.rs:26-33 | writes the four sub-header bytes and leaves the rest of the buffer |
| `Fragment.HeaderRoundTrip` | crates/gravital-talk-core/src/fragment.rs:26-48 | a printed sub-header reads back if and only if it is in range |
| `Fragment.HeaderLayout` | crates/gravital-talk-core/src/fragment.rs:35-48 | index first, then total, big-endian, 1 to 16 fragments, errors in order |
| `Fragment.HeaderReprint` | crates/gravital-talk-core/src/fragment.rs:35-48 | whatever decodes is in range and is the print of its decoding |
| `Fragment.NewReassembler` | crates/gravital-talk-core/src/fragment.rs:64-75 | accepts exactly 1 to 16 fragments, all slots empty |
| `Fragment.FragmentReassembler.Insert` | crates/gravital-talk-core/src/fragment.rs:79-90 | fills an empty slot in range, else reports why and changes nothing; the counter stays the number of filled slots |
| `Fragment.FragmentReassembler.IsComplete` | crates/gravital-talk-core/src/fragment.rs:93-95 | the counter test is true exactly when every slot is filled |
| `Fragment.FragmentReassembler.Finish` | crates/gravital-talk-core/src/fragment.rs:98-112 | the loop returns the concatenation in index order, or reports an incomplete frame |
| `Fragment.SlotHoldsFirst` | crates/gravital-talk-core/src/fragment.rs:79-90 | a slot holds the first payload that arrived for it, and nothing when none did |
| `Fragment.ReassemblyIsOrderFree` | crates/gravital-talk-core/src/fragment.rs:64-112 | in any order, with duplicates and stray indices, finishing gives the whole frame if and only if every fragment arrived |
| `Fragment.SameFragmentsSameSlots` | crates/gravital-talk-core/src/fragment.rs:79-90 | two arrival orders of the same fragments leave the same state |
| `Estimators.Settles` | crates/gravital-talk-metrics/src/rtt.rs:40-51 | under constant input the truncated step never overshoots and ends exactly weight - 1 away, or where it started if nearer |
| `Estimators.SettlesMonotonically` | crates/gravital-talk-metrics/src/rtt.rs:40-51 | each further step moves closer or stays |
| `Estimators.RttEstimator.Record` | crates/gravital-talk-metrics/src/rtt.rs:34-53 | the first sample, then one truncated eighth of the distance |
| `Estimators.RttWithinSamples` | crates/gravital-talk-metrics/src/rtt.rs:34-53 | over every history the estimate lies between the smallest and largest sample, and is absent exactly when all samples were the sentinel |
| `Estimators.RttSettles` | crates/gravital-talk-metrics/src/rtt.rs:34-53 | equal samples bring it within 7 microseconds without overshoot |
| `Estimators.JitterEstimator.Record` | crates/gravital-talk-metrics/src/jitter.rs:33-52 | for all 64-bit timestamps with wrapping differences: the first transit time, then one truncated sixteenth of the distance, clamped to 32 bits |
| `Estimators.JitterWithinChanges` | crates/gravital-talk-metrics/src/jitter.rs:33-52 | over every history of 64-bit timestamps the estimate never exceeds the largest true change in transit time |
| `Estimators.MeasuredAtMost` | crates/gravital-talk-metrics/src/jitter.rs:34-40 | 64-bit wrapping never makes a change in transit time look larger than it is |
| `Estimators.JitterSettles` | crates/gravital-talk-metrics/src/jitter.rs:33-52 | equal measured changes, none from the sentinel, bring it within 15 microseconds without overshoot, or to u32::MAX if that is nearer |
| `Estimators.JitterWithinFifteen` | crates/gravital-talk-metrics/src/jitter.rs:33-52 | after enough equal changes the distance is exactly 15 microseconds, or what it was if less |

## Left out

- Sockets, timers, DNS, audio devices, the command line, the terminal interface, the mobile, Python and Web bindings: no proof content.
- X25519, HKDF, ChaCha20-Poly1305 and Ed25519 internals: free symbols in the handshake; in the audio path packets are modelled after decryption, with decryption inverting encryption taken as given.
- An attacker who makes up packets: the handshake network loses, duplicates and reorders only packets that were really sent.
- Fields of the hello messages that no decision depends on (sample rate, channels, frame duration, bitrate, capability flags): not modelled.
- Opus and the resampler: any function of the payloads decoded so far.
- The floor controller on the client side and the fixed-offset message structs: plain datatypes, nothing beyond one match or one copy.
- WebSocket floor messages: the relay routes them without arbitration, so the floor theorems speak of UDP requests.
- Congestion control, MOS estimation, bitrate adaptation: floating point with one clamp.
- Room codes, HTTP endpoints, counters, the map's internal concurrency: router operations are atomic steps.
- Memory ordering of the jitter buffer's atomics with a truly parallel producer and consumer: the buffer is used by one task at a time.
- Heartbeats, liveness timeouts, pause and resume as concurrent actors in the lifecycle race; the two key stores of an attempt, and the two key erasures of a close, are one step each.
- `sequence & (capacity - 1)` is written as the remainder by the capacity, which is the same for powers of two.
- Jitter.JitterBuffer.constructor: requires a capacity the source's assertions accept; the panic on others is not modelled.
- Fec.XorInto: works on sequences instead of a mutable slice; nothing aliases the accumulator.
- Pipeline.EndToEnd: assumes that no deadline expires, since an expired one gives up a frame by design, and that the buffer holds at least one group of four, as every buffer a session asks for does (`JitterSlotsAccepted`).
- Sending.SenderTracks: a send either fails or goes through; which of encryption, the packet size limit or the socket failed is not distinguished. A parity packet that cannot be sent fails silently in the source and counts as lost on the network. Calls rejected before numbering (session not active, no peer) change nothing and are not modelled.
- Integrity.EveryFrameGenuine: like `IntegrityIff` and `DeliveriesGenuine`, covers streams of at most 2^32 frames; beyond that a packet kept back for a whole turn of the counter would carry the number of a later frame.
- Loss.LossTracker.Record: a shift by 64 panics in a checked build and keeps the bitmap in an optimised one; the model takes the second, as `RecordKeepsIff` spells out. The same holds for negating -2^31, which is out of the window either way.
- Loss.LossPercentCounts: exact division instead of 32-bit floats; `reorder_percent` is one division and is not modelled.
- Estimators.JitterEstimator.Record: 64-bit differences wrap, as in an optimised build; a checked build would panic on overflow.
- Stun.FindMapped: takes the field and address readers as one value, so that the loop's proof does not depend on bit arithmetic; sending, retrying and DNS are not modelled.
