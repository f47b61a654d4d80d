# PrintDrop transfer, verified

PrintDrop moves a file from a phone's browser to a Windows receiver through a relay
that only forwards. This project models the three programs and proves what holds of
them together.

| part | files |
|---|---|
| SHA-256: the standard, JavaScript's number operators, the browser's hasher | `Fips180.dfy`, `Fips180Bits.dfy`, `Fips180Constants.dfy`, `Bits.dfy`, `JsNumber.dfy`, `JsSha256Words.dfy`, `JsSha256.dfy` |
| Wire format and the two codecs | `Bytes.dfy`, `Wire.dfy`, `CCodec.dfy`, `JsCodec.dfy`, `Codecs.dfy` |
| Filename sanitizer | `Filename.dfy` |
| Receiver, from the file system up | `Storage.dfy`, `Transfer.dfy`, `ReceiveTrace.dfy`, `FileReceive.dfy`, `ReceiveHandler.dfy`, `ReceiverProtocol.dfy`, `ReceiverLoop.dfy`, and its specification `ReceiverSpec.dfy` |
| Relay: registry, interleavings, forwarding | `RelayRegistry.dfy`, `RelaySystem.dfy`, `Forwarding.dfy` |
| Sender | `Sender.dfy` |
| The composed system | `PlanRun.dfy`, `Composition.dfy`, `Conversation.dfy`, `Exchanges.dfy`, `Completion.dfy`, `Delivery.dfy`, `ManySenders.dfy` |

`dafny verify dfyconfig.toml` checks everything.

How the parts meet: the five receiver classes are proved to refine the loop step of
`ReceiverSpec`, whatever call fails; `SendFile` is proved to hold the planned conversation
of `Sender`; the lanes of `Forwarding` carry messages between them. `Composition` puts the
specification's loop step, the planned conversation and two lanes into one transition
system and proves its safety over all runs; `Conversation` and `Exchanges` tie its sender
back to the contract of `SendFile`, in both directions; `Completion` adds that nothing but a fault stops it;
`ManySenders` extends the end-to-end result to bridges with several senders. Each step of the relay's
transition system is one call on its server object (`RelaySystem.Perform`).

Every operating-system call, socket operation and file read may fail at any point. Which of them do is
an input (`Storage.Platform`, the `link` of the receive loop, `Sender.Surroundings`): contracts say what
follows for every choice, and that a refusal has its cause among them. `Delivery` runs both ends where
none fails.

Definitions that a program and its specification share are fixed by statements of their own: the bits and
formulas of SHA-256 in `Fips180Bits`, the wire format at fixed inputs and by case in `Codecs`, the
sanitizer byte by byte in `Filename`, and states and refusals of the receiver in the frames' own terms in
`ReceiverSpec`.

Facts about the code worth knowing, each with its lemma or contract:

- A FILE_END that arrives before the last byte leaves the staging file, its handle and the
  hash behind: `pd_win32_receive_finish` clears `active` before the abort callback looks at it
  (src/win32_receive_handler.c:97-107). `ReceiverLoop.Loop.Run` proves that this is the only
  such path, and `ReceiverLoop.LeakOnShortcut` runs into it.
- The receiver never sends the integrity-error status: a digest mismatch reaches the peer as a
  storage error (src/receiver_loop.c:57-66, `ReceiverSpec.NeverIntegrityStatus`,
  `ReceiverSpec.MismatchIsStorageError`).
- The comparisons with "." and ".." in the sanitizer cannot hold, since dots were trimmed before
  (src/filename.c:115-127, `Filename.NoDotsLeft`).
- A bridge can stay active after it was cancelled: exactly when a sender has left it
  (`RelaySystem.ActiveButCancelled`, relay/server.go:199-202).
- A bridge can see a second sender, even one that is then cut off by the first
  (`RelaySystem.SecondSenderOnCancelledBridge`). `RelaySystem.FurtherSenderExactlyWhen` says exactly
  when one is admitted, `RelaySystem.OneSenderExactlyWhen` which runs keep a bridge to one sender, and
  `RelaySystem.RaceWindow` that only the moment between detachSender and cancel, or a refused connection,
  lets one onto a bridge that still forwards. A sender that resolves has its own file in
  place all the same: `ManySenders.EndToEnd`.
- The state diagram of docs/architecture.md has no move from WAITING to VERIFYING; the code makes
  it for an empty file (src/session.c:36-52, `Transfer.EmptyFileSkipsReceiving`), and that is the only
  call that leaves the diagram (`Transfer.LegalExactlyWhen`).
- The receiver refuses three things its progress machine would accept: a chunk before begin, a chunk above
  the frame limit, and the finish of an empty file before begin (`ReceiveTrace.WriteMirrors`,
  `ReceiveTrace.FinishMirrors`).

## Model

| member | source | states |
|---|---|---|
| `JsSha256Words.RotrAgrees` | web/sha256.js:20-22 | `rotr` on any 32-bit word, a signed number as often as not, denotes the FIPS 180-4 rotation |
| `JsSha256Words.SigmaAgrees` | web/sha256.js:104-107 | three exclusive-ored rotations denote the Sigma functions of section 4.1.2 |
| `JsSha256Words.ChAgrees` | web/sha256.js:105 | the signed `(e & f) ^ (~e & g)` denotes Ch |
| `JsSha256Words.MajAgrees` | web/sha256.js:108 | the signed majority expression denotes Maj |
| `JsSha256Words.LoadAgrees` | web/sha256.js:79-85 | the shift-and-or load is the big-endian word of the four bytes, whatever the sign bit |
| `JsSha256Words.SumAgrees` | web/sha256.js:91-109 | a sum with two signed terms is exact in a double and `>>> 0` takes it to the sum of the words modulo 2^32 |
| `JsSha256Words.ExpansionAgrees` | web/sha256.js:86-92 | every intermediate sum of the schedule is exact, and the result is step 1 of section 6.2.2 |
| `JsSha256Words.RoundSums` | web/sha256.js:104-109 | every intermediate sum of a round is exact, and t1 and t2 are those of the standard |
| `JsSha256Words.RoundAgrees` | web/sha256.js:103-119 | one loop iteration on the eight locals is step 3 of section 6.2.2, for all states, constants and words |
| `Fips180Constants.ConstantsAreCubeRoots` | web/sha256.js:1-18 | each of the 64 constants is the first 32 fractional bits of the cube root of its prime |
| `Fips180Constants.InitialValueIsSquareRoots` | web/sha256.js:26-35 | each initial word is the first 32 fractional bits of the square root of its prime |
| `Fips180.ZeroCountIsLeast` | web/sha256.js:131-144 | the padding of the specification uses the least number of zeros that fills the block |
| `Fips180.ChainPrefix` | web/sha256.js:43-75 | the chaining value depends on the hashed blocks alone |
| `Fips180Bits.AndBit` | web/sha256.js:105-108 | every bit of a bitwise and is the conjunction of the operands' bits |
| `Fips180Bits.OrBit` | web/sha256.js:20-22 | every bit of a bitwise or is the disjunction of the operands' bits |
| `Fips180Bits.XorBit` | web/sha256.js:104-108 | every bit of an exclusive or is the difference of the operands' bits |
| `Fips180Bits.RotrBit` | web/sha256.js:20-22 | a rotation moves every bit down by its count, around the end of the word |
| `Fips180Bits.ChBit` | web/sha256.js:105 | Ch takes the second operand's bit where the first has a one, and the third's where it has a zero |
| `Fips180Bits.MajBit` | web/sha256.js:108 | Maj takes the majority of the three bits |
| `Fips180Bits.BigSigmaBits` | web/sha256.js:104-107 | each bit of the two Sigma functions is the parity of three given bits |
| `Fips180Bits.SmallSigmaBits` | web/sha256.js:89-90 | each bit of the two sigma functions is the parity of two rotated bits and a shifted one |
| `Fips180Bits.ScheduleFormula` | web/sha256.js:79-92 | the message schedule of section 6.2.2, written out |
| `Fips180Bits.RoundFormula` | web/sha256.js:103-119 | one round of section 6.2.2, written out modulo 2^32 |
| `Fips180Bits.CompressFormula` | web/sha256.js:121-128 | the sums at the end of a block, modulo 2^32 |
| `Fips180Bits.PaddedFormula` | web/sha256.js:131-148 | the padding of section 5.1.1, byte by byte, with the length in bits at its end |
| `Fips180Bits.ChainFormula` | web/sha256.js:58-72 | the blocks of the padded message are compressed in order |
| `Fips180Bits.DigestFormula` | web/sha256.js:153-164 | the digest is the last hash value, word by word |
| `JsNumber.SafeIntegers` | web/sha256.js:51-54 | the largest count the hasher accepts is 2^53 - 1 |
| `JsSha256.IncrementalSha256.constructor` | web/sha256.js:25-41 | the fields a new hasher has, in arrays of its own |
| `JsSha256.IncrementalSha256.NewIsValid` | web/sha256.js:25-41 | a new hasher has absorbed the empty input |
| `JsSha256.IncrementalSha256.Update` | web/sha256.js:43-75 | the two refusals happen exactly under their guards; otherwise the bytes absorbed are extended by the whole input, for every input size and buffer level; after the too-large error nothing was hashed, and every later update is refused the same way; the input is untouched |
| `JsSha256.IncrementalSha256.Fill` | web/sha256.js:57-72 | a partial block is buffered, and hashed as soon as it is whole |
| `JsSha256.IncrementalSha256.ProcessBlock` | web/sha256.js:77-129 | the state becomes the FIPS 180-4 compression of the old state and the 64 bytes, from the input or from the buffer |
| `JsSha256.IncrementalSha256.LoadWords` | web/sha256.js:78-85 | the first 16 words of the message schedule |
| `JsSha256.IncrementalSha256.ExpandWords` | web/sha256.js:86-92 | all 64 words of the message schedule |
| `JsSha256.IncrementalSha256.RunRounds` | web/sha256.js:94-119 | 64 rounds from the current state |
| `JsSha256.IncrementalSha256.AddState` | web/sha256.js:121-128 | word-wise addition modulo 2^32 into the state |
| `JsSha256.IncrementalSha256.Finalize` | web/sha256.js:131-151 | the state becomes the final hash of everything fed, with padding in one block or two; a second call changes nothing |
| `JsSha256.IncrementalSha256.WriteLength` | web/sha256.js:145-148 | the last eight bytes of the block are the bit length, most significant first |
| `JsSha256.IncrementalSha256.Array` | web/sha256.js:153-164 | the SHA-256 of everything fed, however it was split and however often it is asked for |
| `JsSha256Words.TablesAgree` | web/sha256.js:1-18 | the source's table of constants is the standard's |
| `JsSha256.IncrementalSha256.Consume` | web/sha256.js:57-72 | each turn of the loop absorbs a non-empty piece of the input, in place or through the buffer |
| `JsSha256.IncrementalSha256.SpillBlock` | web/sha256.js:138-142 | a block closed by marker and zeros is hashed when the length does not fit |
| `JsSha256.IncrementalSha256.LastBlock` | web/sha256.js:144-150 | the last block is what is buffered, zeros and the length |
| `JsSha256.AbsorbTail` | web/sha256.js:63-67 | bytes that complete no block change only the tail |
| `JsSha256.AbsorbBlock` | web/sha256.js:58-72 | bytes that complete a block chain exactly that block, buffered or read in place |
| `JsSha256.PadInOneBlock` | web/sha256.js:135-150 | a tail under 56 bytes closes in its own block to the standard's padded message |
| `JsSha256.PadInTwoBlocks` | web/sha256.js:138-150 | a longer tail closes across a block boundary to the same padded message |
| `Sender.HashFileIncremental` | web/sender.js:54-84 | for every positive slice size the digest is the SHA-256 of the file; configuration errors exactly under their guards, and a failure exactly if some slice cannot be read |
| `Sender.DigestOfUpdates` | web/sha256.js:43-164 | every sequence of updates, empty ones included, gives the SHA-256 of the concatenation, and a second `array()` repeats it |
| `Sender.Socket.SendFrameAndWait` | web/sender.js:142-186 | a frame goes out whole or not at all; success if and only if the reply decodes to the awaited type, OK, and the expected count |
| `Sender.SendFile` | web/sender.js:188-236 | the messages written are the planned frames in order, up to the first thing that goes wrong: a closed socket, an unreadable slice or chunk, or a reply other than the awaited one, each told apart and each exactly where the surroundings have it |
| `Sender.SendChunks` | web/sender.js:211-226 | the loop over the chunks does the same for its part of the plan |
| `Sender.ResolvesExactlyIfAllWell` | web/sender.js:188-236 | `sendFile` resolves if and only if the socket stays open, everything can be read, and every reply is the one awaited |
| `Sender.PlanInNumbers` | web/sender.js:205-232 | the plan in numbers: 2 + ceil(size / 49152) frames, their kinds, the bytes of each chunk, and the count awaited for each |
| `Sender.DigestibleInNumbers` | web/sender.js:12 | files are hashed in slices of 2^20 bytes |
| `Sender.PlanFrame` | web/sender.js:205-232 | every planned frame fits a relay message and is of a kind that is acknowledged |
| `Sender.ExpectedAck` | web/sender.js:175-186 | what `sendFile` waits for can be encoded |
| `Sender.NextChunk` | web/sender.js:212-221 | the offset loop sends exactly the planned chunks, and ends exactly after the last |
| `Sender.FollowsExtends` | web/sender.js:175-232 | each exchange carries the planned conversation on by one frame or ends it |
| `CCodec.ReadBeValue` | src/frame.c:22-31 | bytes shifted and joined with bitwise or are the big-endian integer, for any width |
| `CCodec.FrameEncodeHeader` | src/frame.c:33-61 | the twelve header bytes, or the refusal of the first guard that fails, which writes nothing |
| `CCodec.WriteU32` | src/frame.c:14-20 | four bytes, most significant first, and no other byte |
| `CCodec.RelayMessageEncode` | src/relay_message.c:5-41 | the buffer starts with the message and is otherwise untouched; each refusal exactly under its guards |
| `CCodec.AckEncode` | src/ack.c:33-51 | the twelve payload bytes; refusals exactly by type and status, which write nothing |
| `CCodec.FileBeginEncode` | src/file_begin.c:36-71 | the payload, or a refusal exactly by name length and capacity |
| `JsCodec.EncodeFrame` | web/protocol.js:50-66 | the unique message of the frame, refused exactly for an invalid type or an oversized payload |
| `JsCodec.EncodeFileBegin` | web/protocol.js:98-120 | the unique payload of the metadata, refused exactly when the metadata is invalid |
| `Codecs.JsDecodesExactlyMessages` | web/protocol.js:68-96 | `decodeFrame` returns f on m if and only if f is valid and m is its encoding: both round trips and uniqueness |
| `Codecs.DecodersAgree` | src/relay_message.c:43-71 | the C and JavaScript decoders agree on every byte string, on acceptance, type and payload |
| `Codecs.CDecodesExactlyMessages` | src/frame.c:63-102 | the same for the C decoder |
| `Codecs.CDecodesExactlyAckPayloads` | src/ack.c:53-81 | `pd_ack_decode` accepts exactly the encodings of valid acknowledgements and returns what was encoded |
| `Codecs.AckDecodersAgree` | web/protocol.js:122-147 | `decodeAck` judges a payload as `pd_ack_decode` does |
| `Codecs.JsDecodesExactlyAcks` | web/protocol.js:129-147 | `decodeAck` accepts exactly the messages the receiver can send, each with its own meaning |
| `Codecs.HeaderDecodesByCase` | src/frame.c:63-102 | what `pd_frame_decode_header` makes of any twelve bytes: the first thing wrong, in its order, or the fields |
| `Codecs.AckDecodesByCase` | src/ack.c:53-81 | what `pd_ack_decode` makes of any payload: the first thing wrong, in its order, or the fields |
| `Codecs.WireExamples` | web/protocol.js:50-120 | the wire format at fixed inputs |
| `Codecs.CDecodesExactlyMetaPayloads` | src/file_begin.c:73-105 | `pd_file_begin_decode` accepts exactly what `encodeFileBegin` can produce and returns size, digest and name unchanged |
| `Filename.Sanitize` | src/filename.c:79-154 | status, required capacity and the exact buffer in each case: the name and its terminator, an empty string if it does not fit, nothing if the name is too long |
| `Filename.CleanCandidate` | src/filename.c:103-127 | the candidate after replacement, trimming and fallback |
| `Filename.IsReservedDeviceName` | src/filename.c:46-77 | true exactly for device base names, in any case, before the first dot |
| `Filename.NormalForm` | src/filename.c:46-154 | image, fixed points and normal forms are one set; sanitizing is idempotent |
| `Filename.ResultIsNormal` | src/filename.c:103-153 | what comes out is non-empty, at most 120 bytes, clean, without trailing dot or space, and not reserved |
| `Filename.NormalIsFixed` | src/filename.c:79-154 | a name in normal form comes out unchanged |
| `Filename.FixedIsNormal` | src/filename.c:79-154 | being a fixed point is being in normal form |
| `Filename.RefusedExactlyWhen` | src/filename.c:131-137 | a name a FILE_BEGIN can carry is refused if and only if its cleaned form is reserved and 120 bytes long |
| `Filename.CleanIsNotUnsafe` | src/filename.c:6-18 | which bytes are replaced, by number |
| `Filename.TrimmedExactly` | src/filename.c:114-117 | only dots and spaces at the end are cut off, and all of them |
| `Filename.CleanedExactly` | src/filename.c:103-127 | a name of dots and spaces alone becomes "file"; any other keeps each byte in front of the cut, or an underscore for an unsafe one |
| `Filename.DevicesExactly` | src/filename.c:54-76 | the device names, by letter and in any mixture of cases |
| `Filename.ReservedExactly` | src/filename.c:46-77 | a name is reserved if and only if its part before the first dot is one of them |
| `Filename.SanitizedExactly` | src/filename.c:97-153 | the cleaned name, behind an underscore exactly if it is reserved, and when nothing comes out |
| `Filename.NoDotsLeft` | src/filename.c:115-127 | after trimming no name is a single or a double dot, so only the empty one needs the fallback |
| `Filename.PrefixEscapes` | src/filename.c:131-152 | the underscore prefix takes any name out of the reserved set |
| `FileReceive.DigestEqual` | src/integrity.c:19-33 | the accumulating comparison is true if and only if the digests are equal |
| `Transfer.TransferProgress.constructor` | src/session.c:5-14 | a waiting transfer with nothing received |
| `Transfer.TransferProgress.Accept` | src/session.c:16-34 | the move of the progress machine, with its result, always one of the diagram |
| `Transfer.TransferProgress.Verify` | src/session.c:36-52 | verification begins exactly when all bytes are in and the transfer is open, and leaves the diagram exactly for an empty file that waits |
| `Transfer.TransferProgress.Finish` | src/session.c:54-62 | completes exactly from verifying, with every byte in, and touches nothing else |
| `Transfer.TransferProgress.Fail` | src/session.c:64-71 | afterwards failed, or complete from before with every byte in; a move of the diagram either way |
| `Transfer.CompleteMeansAllBytes` | src/session.c:5-71 | over every run of calls, verifying or complete means every expected byte was accepted, and never more |
| `Transfer.ChunkByCase` | src/session.c:16-34 | what becomes of any chunk in any state: the first thing wrong, in the code's order, or its bytes counted |
| `Transfer.LegalExactlyWhen` | src/session.c:16-71 | over every run of calls, the next call makes a move of the state diagram as drawn if and only if it does not verify a waiting transfer of an empty file |
| `Transfer.EmptyFileSkipsReceiving` | src/session.c:36-52 | that call: WAITING goes to VERIFYING, which is not drawn |
| `Transfer.FinalStatesStay` | src/session.c:16-71 | no call leaves COMPLETE or FAILED |
| `Storage.Recheck` | src/win32_file_sink.c:207-213 | the sanitizer leaves a name alone if and only if it is in normal form |
| `Storage.FileSink.Init` | src/win32_file_sink.c:184-213 | refuses a name if and only if it is not in normal form; any other refusal is the platform's |
| `Storage.FileSink.Begin` | src/win32_file_sink.c:85-112 | an empty staging file and an open handle, or nothing; a file already at the staging path is refused and left alone |
| `Storage.FileSink.Write` | src/win32_file_sink.c:114-138 | appends what was written, possibly short, to the staging file |
| `Storage.FileSink.Commit` | src/win32_file_sink.c:140-164 | the staging file becomes the final one, or the final path is untouched; a failure leaves the handle closed or still known |
| `Storage.FileSink.Abort` | src/win32_file_sink.c:166-182 | handle closed and staging file deleted, unless the system refuses one of the two calls |
| `Storage.HashContext.Update` | src/win32_sha256.c:97-115 | the bytes fed are extended, or the operation fails |
| `Storage.HashContext.Finish` | src/win32_sha256.c:117-133 | the digest of the bytes fed, and the context released either way |
| `FileReceive.FileReceiver.Init` | src/file_receive.c:37-52 | an idle receiver for that many bytes |
| `FileReceive.FileReceiver.ConfigureIntegrity` | src/file_receive.c:54-72 | only an idle receiver takes a digest |
| `FileReceive.FileReceiver.AbortResources` | src/file_receive.c:17-27 | hash and sink released, the sink aborted once if it was started and not otherwise |
| `FileReceive.FileReceiver.Fail` | src/file_receive.c:29-35 | failed, with everything released and nothing committed |
| `FileReceive.FileReceiver.Begin` | src/file_receive.c:74-100 | receiving with an empty staging file, or failed with everything released, which only a failed call can cause |
| `FileReceive.FileReceiver.Write` | src/file_receive.c:102-145 | each refusal exactly under its guard and without effect; success appends and counts the chunk; any other end has failed with a failed call |
| `FileReceive.FileReceiver.Finish` | src/file_receive.c:147-188 | the one way to the final path: all bytes in, digest equal, and the staged bytes moved; each refusal exactly under its guard and without effect |
| `FileReceive.FileReceiver.Store` | src/file_receive.c:131-144 | a chunk that fits is staged, hashed and counted, or everything is released |
| `FileReceive.FileReceiver.CheckDigest` | src/file_receive.c:163-179 | goes on exactly when the staged bytes have the announced digest; a mismatch and a failed hash are told apart |
| `FileReceive.FileReceiver.CommitStaged` | src/file_receive.c:181-187 | verified bytes reach the final path, or everything is released |
| `ReceiveTrace.WriteMirrors` | src/file_receive.c:102-145 | a write is a move of the progress machine; the machine accepts what the receiver refuses if and only if the file was not begun or the chunk is above the frame limit |
| `ReceiveTrace.FinishMirrors` | src/file_receive.c:147-188 | a finish verifies and completes or fails the machine; the machine verifies what the receiver refuses if and only if an empty file was not begun |
| `ReceiveTrace.OpMirrors` | src/file_receive.c:74-198 | every operation is its calls of the progress machine, and the two turn it down together but for the exact exceptions |
| `ReceiveTrace.OpLegalExactlyWhen` | src/session.c:16-71 | the calls of an operation are moves of the state diagram if and only if it does not finish an empty file that was begun |
| `ReceiveTrace.TraceMirrors` | src/session.c:5-71 | over every run of begin, write, finish and abort, state and count are those of the machine after the calls of the operations so far |
| `ReceiveTrace.TraceMatches` | src/file_receive.c:74-198 | at every operation of every run: refused by the receiver alone, and outside the diagram, exactly in the stated exceptions |
| `FileReceive.FileReceiver.Do` | src/file_receive.c:74-198 | one operation answers and moves as its guards say, and stores exactly an accepted chunk |
| `FileReceive.FileReceiver.Operate` | src/file_receive.c:74-198 | a sequence of operations yields a trace: one result and one state for each, the machine's run with the same counts, and in store the accepted chunks in order |
| `FileReceive.FileReceiver.Abort` | src/file_receive.c:190-198 | aborts a receiving file once, and nothing else |
| `ReceiveHandler.Handler.Begin` | src/win32_receive_handler.c:33-76 | a configured, active receiver for the first file or a later one; with a name in normal form only a failed call or an active file refuses |
| `ReceiveHandler.Handler.MakeJobId` | src/win32_receive_handler.c:44-46 | a job identifier is there exactly if the platform gives one |
| `ReceiveHandler.Handler.NeverFaulted` | src/win32_receive_handler.c:33-113 | on a platform where nothing fails, nothing has failed |
| `ReceiveHandler.Handler.Configure` | src/win32_receive_handler.c:55-68 | hash and receiver are set up afresh for the announced size and digest, whatever came before |
| `ReceiveHandler.Handler.Chunk` | src/win32_receive_handler.c:78-87 | staged bytes grow by the chunk; a refusal has one of the listed reasons |
| `ReceiveHandler.Handler.Finish` | src/win32_receive_handler.c:89-101 | `active` is cleared in every case, and a file is left that nothing can abort exactly when bytes were missing |
| `ReceiveHandler.Handler.Abort` | src/win32_receive_handler.c:103-113 | aborts an active file, and does nothing at all otherwise |
| `ReceiverProtocol.Protocol.Fail` | src/receiver_protocol.c:14-24 | failed, handler aborted if a file was active, byte count kept for the ACK |
| `ReceiverProtocol.Protocol.BeginFile` | src/receiver_protocol.c:41-69 | metadata errors exactly for payloads that announce nothing acceptable; else the announced file is being received |
| `ReceiverProtocol.SanitizeName` | src/receiver_protocol.c:53-58 | the name the file is stored under is in normal form, and there is one exactly when the sanitizer has one |
| `ReceiverProtocol.Protocol.WriteChunk` | src/receiver_protocol.c:71-85 | the chunk is appended, or the session failed for a stated reason |
| `ReceiverProtocol.Protocol.FinishFile` | src/receiver_protocol.c:87-102 | complete with the received bytes when size and digest agree; leaks exactly on an early end |
| `ReceiverProtocol.Protocol.Handle` | src/receiver_protocol.c:104-141 | refines the specification step: acceptance, refusal with its reason and its exact result, byte count and leak, for every frame in every state |
| `ReceiverProtocol.Protocol.Abort` | src/receiver_protocol.c:143-155 | an open session fails, a finished one stays as it is |
| `ReceiverProtocol.Protocol.EndState` | src/receiver_protocol.c:87-155 | a file is at the final path if and only if the session is complete; otherwise everything is released unless leaked; aborts at most one, none after a commit |
| `ReceiverLoop.ErrorStatus` | src/receiver_loop.c:57-66 | which result gives which status; integrity error is not among them |
| `ReceiverLoop.RefusalAgrees` | src/receiver_loop.c:57-66 | result and status together are the status the frame and the state determine |
| `ReceiverLoop.Loop.ReceiveFrame` | src/win32_relay_client.c:289-366 | the frame handed on is the decoding of the message, its payload a view into the one buffer |
| `ReceiverLoop.Loop.EncodeAck` | src/win32_relay_client.c:233-256 | encoding an ACK over the received message cannot fail |
| `ReceiverLoop.Loop.SendAck` | src/receiver_loop.c:29-50 | the exact ACK message is sent, or the connection is gone |
| `ReceiverLoop.Loop.Answer` | src/receiver_loop.c:98-122 | a handled frame is answered and the loop continued or ended as the specification allows |
| `ReceiverLoop.Loop.Refuse` | src/receiver_loop.c:99-107 | a refused data frame is told its status and the byte count, any other frame nothing |
| `ReceiverLoop.Loop.Confirm` | src/receiver_loop.c:108-113 | an accepted frame is confirmed, or the session fails unless it was complete |
| `ReceiverLoop.Loop.Iterate` | src/receiver_loop.c:76-123 | one iteration refines the specification's loop step although the ACK overwrites the payload; every refusal has a reason |
| `ReceiverLoop.Loop.Run` | src/receiver_loop.c:68-124 | for every peer, every platform and every connection: the run is one of the specification's, ends within the announced size and two rounds, has a file in place exactly when complete, releases everything except exactly on an early end, and aborts at most once and never after a commit |
| `ReceiverLoop.TraceStep` | src/receiver_loop.c:76-123 | each step extends the traced run, its ACKs and its leak condition |
| `ReceiverSpec.StepShape` | src/receiver_protocol.c:104-141 | what one frame can do: no return to waiting, completion exactly on FILE_END, strictly growing byte count within the announced size |
| `ReceiverSpec.RunStep` | src/receiver_loop.c:76-123 | every loop step takes a run to a run; those that go on use up announced bytes |
| `ReceiverSpec.ReceivingContent` | src/file_receive.c:102-145 | the bytes received are the in-order concatenation of the chunks, each non-empty |
| `ReceiverSpec.CompleteContent` | src/file_receive.c:147-188 | a completed file is the chunks between FILE_BEGIN and FILE_END, of the announced size and digest |
| `ReceiverSpec.CommitGate` | src/receiver_loop.c:68-124 | a run ends complete only with that content; a lost final ACK gives a send error with the file in place |
| `ReceiverSpec.RunIsBounded` | src/receiver_loop.c:76-123 | no peer gets more iterations than the announced size and two |
| `ReceiverSpec.AckTrace` | src/receiver_loop.c:29-122 | the ACKs are in order, one for each data frame handled; each OK one counts the chunk bytes so far, and only the last can be a refusal, which is exactly the one its frame and the frames before it determine |
| `ReceiverSpec.ReceivingExactlyWhen` | src/receiver_protocol.c:104-141 | a file is being received exactly after an acceptable FILE_BEGIN and non-empty CHUNKs that fit, and it is their bytes |
| `ReceiverSpec.CompleteExactlyWhen` | src/receiver_protocol.c:87-102 | and complete exactly after an empty FILE_END on top, with all bytes and the right digest |
| `ReceiverSpec.RefusalsByCase` | src/receiver_loop.c:52-66 | the status of every refusal of every run, by number: out of turn and malformed frames are protocol errors, unacceptable announcements rejected, the rest storage errors; other frames get no answer |
| `ReceiverSpec.OutOfTurnEnds` | src/receiver_protocol.c:126-141 | a frame out of turn ends every run that gets to it |
| `ReceiverSpec.NeverIntegrityStatus` | src/receiver_loop.c:57-66 | over every run, no ACK carries the integrity status |
| `ReceiverSpec.MismatchIsStorageError` | src/file_receive.c:171-178 | over every run, a FILE_END after all bytes under another digest ends it, and the peer is told of a storage error |
| `ReceiverSpec.MismatchHappens` | src/file_receive.c:171-178 | frames for which that is so |
| `ReceiverSpec.EarlyEndHappens` | src/win32_receive_handler.c:89-113 | a concrete pair of frames of which the second ends a file early |
| `ReceiverLoop.LeakOnShortcut` | src/win32_receive_handler.c:89-113 | a new loop fed with that pair leaks and holds on to its resources, unless a call or the connection fails first |
| `RelayRegistry.RelayServer.DoExpireLocked` | relay/server.go:311-320 | the record leaves the map for good, every bridge made for it is cancelled, and no other record, session or bridge is touched |
| `RelayRegistry.RelayServer.DoRegister` | relay/server.go:219-241 | a live session is kept and told by its secret to be existing or in conflict; any other id gets a new record, with every earlier bridge of that id cancelled; nothing else is touched |
| `RelayRegistry.RelayServer.DoAttachReceiver` | relay/server.go:243-272 | the receiver gets the one uncancelled bridge of a live session whose secret it knows and that had none; each refusal has exactly its own reason and changes nothing but an expired session |
| `RelayRegistry.RelayServer.DoDetachReceiver` | relay/server.go:274-282 | the bridge is cancelled and no record's active one; every other record and bridge is as before, whoever holds the id by then |
| `RelayRegistry.RelayServer.DoAttachSender` | relay/server.go:284-330 | the flag of a live session's active bridge is taken exactly if it was free; each refusal has exactly its own reason |
| `RelayRegistry.RelayServer.DoDetachSender` | relay/server.go:332-336 | the flag is free at once, and no record, session or cancellation changes |
| `RelayRegistry.RelayServer.DoSenderCancel` | relay/server.go:199-202 | the bridge stops forwarding and its record keeps it |
| `RelayRegistry.RelayServer.DoExpire` | relay/server.go:303-309 | the timer's own record is out of the map with all its bridges cancelled, and every other record and bridge is as before |
| `RelayRegistry.RegisterMeans` | relay/server.go:219-241 | what a registration means, for every registry that keeps the invariant and every clock reading |
| `RelayRegistry.AttachReceiverMeans` | relay/server.go:243-272 | what a receiver's arrival means, result by result |
| `RelayRegistry.AttachSenderMeans` | relay/server.go:284-330 | what a sender's arrival means, result by result |
| `RelayRegistry.DetachReceiverMeans` | relay/server.go:274-282 | what a receiver's departure means |
| `RelayRegistry.ExpireMeans` | relay/server.go:303-309 | what a timer means, in time or late |
| `RelayRegistry.UnmappedIsSilent` | relay/server.go:311-320 | a session that is not in the map has no bridge that forwards |
| `RelayRegistry.ExpiryIsExact` | relay/server.go:219-301 | a session is there up to, and not at, the moment it expires, for all three lock regions that ask |
| `RelaySystem.NextKept` | relay/server.go:219-336 | no step remakes anything: records keep id, secret hash and expiry, bridges their record and secret, cancelled ones stay so, and a new record is the registration's |
| `RelaySystem.RecordsAreAsRegistered` | relay/server.go:219-241 | over all runs: each record is as some registration of the run made it, and expires at the clock that read plus the time to live |
| `RelaySystem.AdmittedExactlyWhen` | relay/server.go:219-272 | a registration makes a record, and a receiver gets a bridge, exactly when the clock, the secret and the map say so |
| `RelaySystem.PossibleSteps` | relay/server.go:91-336 | anybody can arrive at any moment and leave once there, and every pending timer can fire |
| `RelaySystem.Perform` | relay/server.go:142-336 | each step of the interleaved system is one call on the server object, which stays the system's registry |
| `RelaySystem.NextKeeps` | relay/server.go:142-336 | every step of every handler and timer keeps the registry invariant |
| `RelaySystem.ReachableInv` | relay/server.go:142-336 | the invariant holds in every reachable state |
| `RelaySystem.UncancelledBridges` | relay/server.go:219-320 | over all runs: an uncancelled bridge is the active one of a mapped record whose secret its receiver knew; at most one for a session; unmapped records have none; mapped ones have a pending expiry |
| `RelaySystem.SenderExclusion` | relay/server.go:322-336 | over all runs: exactly one sender on a bridge whose flag is set, none on any other |
| `RelaySystem.ActiveButCancelled` | relay/server.go:199-202 | over all runs: an active bridge is cancelled if and only if a handler has left it by cancelling |
| `RelaySystem.StaleCallbacksSpare` | relay/server.go:274-309 | a late timer or detachReceiver leaves every other record and its bridges as they are |
| `RelaySystem.SecondSenderOnCancelledBridge` | relay/server.go:199-202 | a run in which a second sender attaches to a bridge that is then cancelled while still active |
| `RelaySystem.DeparturesExactlyWhen` | relay/server.go:199-202 | over all runs: departures are counted if and only if a handler has left by cancelling |
| `RelaySystem.FurtherSenderExactlyWhen` | relay/server.go:284-330 | over all runs: a step gives a used bridge a further sender if and only if it is an arrival at a live session whose active bridge it is, with the flag clear |
| `RelaySystem.OneSenderExactlyWhen` | relay/server.go:284-336 | a bridge has had one sender at most over a whole run if and only if no such arrival is in it |
| `RelaySystem.RaceWindow` | relay/server.go:199-202 | over all runs: on a bridge that forwards, every handler before a further sender has detached and not yet cancelled, or was refused its connection |
| `RelayRegistry.ExpireKeeps` | relay/server.go:311-320 | removing a record cannot strand an uncancelled bridge |
| `RelayRegistry.RegisterKeeps` | relay/server.go:219-241 | registering keeps the invariant for any clock reading |
| `RelayRegistry.DetachReceiverKeeps` | relay/server.go:274-282 | leaving keeps the invariant, whoever holds the session id by then |
| `Forwarding.MoveConserves` | relay/server.go:338-382 | each step of a reader or writer goroutine conserves messages and order, and never overfills the channel |
| `Forwarding.ReadExactlyWhen` | relay/server.go:338-382 | a message of at most 61440 bytes is read when the reader is free, put into the channel when that is empty, taken out and written in turn |
| `Forwarding.MovesByCase` | relay/server.go:338-382 | what each move moves, and that a goroutine that has stopped moves nothing more |
| `Forwarding.AcceptedFit` | relay/server.go:338-382 | over every run, no accepted message is longer than 61440 bytes |
| `Forwarding.MovePending` | relay/server.go:338-382 | the relay keeps the order of what is under way |
| `Forwarding.NewPeerPending` | relay/server.go:175-204 | a change of sender loses only the end of what is under way |
| `Forwarding.ForwardingConserves` | relay/server.go:338-382 | over every run with stops anywhere: what is delivered is a prefix of what was accepted, and the rest is in hand, in the channel or being written |
| `PlanRun.PlanRuns` | web/sender.js:205-232 | the receiver's state after the first n frames of any transfer, failures of name and digest included |
| `PlanRun.AcceptableRuns` | web/sender.js:175-232 | every frame of an acceptable transfer is accepted, and its ACK is the one awaited |
| `PlanRun.WholePlan` | web/sender.js:211-232 | accepting the whole plan means having the whole file under its digest |
| `Composition.PossibleSteps` | web/sender.js:142-236 | every fault can happen at every moment, and the rest as soon as there is something to do |
| `Composition.PossibleOutcomes` | src/receiver_loop.c:76-123 | an open receiver can always drop the connection, and refuse any frame, answered or not |
| `Composition.NextKeeps` | web/sender.js:142-236 | every step of sender, relay and receiver, faults included, keeps the invariant of the composed system |
| `Composition.ReceiverTakesKeeps` | src/receiver_loop.c:76-123 | the receiver's step keeps it |
| `Composition.SenderGetsKeeps` | web/sender.js:142-186 | the sender's step on an ACK keeps it |
| `Composition.EndToEnd` | web/sender.js:188-236 | over every run: if `sendFile` resolves, the receiver has in place exactly the sender's bytes, whose hash is the announced digest; and never anything else, resolved or not |
| `Composition.StopAndWait` | web/sender.js:142-186 | over every run: at most one message outstanding in all places together, no channel full on a send, no ACK matched to another frame or met by nobody |
| `Conversation.SenderFollowsContract` | web/sender.js:142-236 | over every run: what the sender of the composed system wrote and heard is a conversation as `SendFile` promises one, and it has resolved exactly when that contract says so |
| `Exchanges.HappensExactlyWhen` | web/sender.js:142-236 | a conversation takes place in some run if and only if it is one of `SendFile`'s contract with replies the receiver can give |
| `Exchanges.RunIsExchangeable` | web/sender.js:142-236 | the replies heard in a run are acknowledgements the receiver gives to exactly those frames |
| `Exchanges.ExchangeableHappens` | web/sender.js:142-236 | every such conversation is held in a run, built exchange by exchange |
| `ManySenders.EndToEnd` | web/sender.js:188-236 | over every run with any number of senders on one bridge, replies lost, late or gone to the wrong one: a `sendFile` that resolved has its own bytes in place under their digest, one resolves at most, and what is in place is the whole file of one of them |
| `ManySenders.PossibleSteps` | relay/server.go:175-204 | a sender can arrive, fail, or lose an answer at any moment, and take any answer there is |
| `ManySenders.NextKeeps` | relay/server.go:142-204 | every step of every sender, attached or gone, of the relay and of the receiver keeps the invariant behind that |
| `ManySenders.TakesOther` | src/receiver_protocol.c:126-141 | what another sender adds to the line is refused by a receiver that has begun a file, with an ACK that helps nobody on |
| `ManySenders.GetsTokens` | web/sender.js:142-186 | there is one OK for a FILE_BEGIN, and only who has it can go on |
| `Completion.SmoothStep` | web/sender.js:175-236 | a step without a fault passes one message over one point |
| `Completion.FaultFreeCompletion` | web/sender.js:205-232 | without faults an acceptable transfer never gets stuck, takes exactly eleven steps for each of its 2 + ceil(size / 49152) frames, and every ACK is the expected one |
| `Completion.ResolvesExactlyWhen` | web/sender.js:188-236 | a transfer that starts can resolve if and only if its name has a sanitized form and its digest is the file's |
| `Delivery.Receive` | src/receiver_loop.c:68-124 | the receive loop itself, given the frames of an acceptable file where nothing fails, ends well with the file in place and exactly the awaited acknowledgements sent |
| `Delivery.Transfer` | web/sender.js:188-236 | and `sendFile` itself, hearing these, resolves |
| `Completion.EveryFileCanBeSent` | web/sender.js:188-236 | every file of a safe size, hashed by the sender, can be sent under every name in normal form |

## Left out

- User interface, message pumping, HTTP routes, JSON, TLS and WebSocket framing: input and output around the modelled logic.
- libcurl and BCrypt calls (src/win32_relay_client.c, src/win32_sha256.c): modelled as operations with given outcomes, under the contract their callers rely on.
- UTF-8 and UTF-16 conversion: TextEncoder's output is a parameter, MultiByteToWideChar may fail.
- QR codes, relay endpoints, session URLs, job identifiers, hex digests, random secrets and secure zeroing: they would only add easy members.
- Path building in src/win32_file_sink.c: a path is one of two slots, the staging and the final one, and CREATE_NEW and MoveFileEx are their effect on those.
- Events and progress callbacks of the receiver loop and of the sender: they observe and do not change the transfer.
- NULL arguments in C and wrong argument types in JavaScript: references are never null here and parameters are typed.
- Real time: the clock is a non-decreasing number and a timeout is a step that can always happen.
- Context cancellation reaching the peers of a bridge: a stop of either goroutine can happen at any moment, which includes it.
- More than one sender on a bridge in stop-and-wait and in fault-free completion: with several senders only the end-to-end result is stated; an acknowledgement can then wait for a sender that never asked for it.
- JsSha256.IncrementalSha256.Update: the input is not the hasher's own buffer, which the source never hands out.
- JsSha256.IncrementalSha256.Array: not for a hasher that has refused an input as too large, whose count is then not of what it hashed.
- ReceiveHandler.Handler.Begin: a sink that cannot be set up after a finished or a leaked file leaves a handler the model says nothing further about, because the receiver then still tells of that file.
- ReceiverLoop.Loop.ReceiveFrame: a message arrives as a whole, not in pieces.
- ReceiverLoop.Loop.Run: the staging file is gone unless the system refused the close or the delete that the code does not check.
- Storage.FileSink.Init: the file system is taken to have nothing at the two paths of a fresh job identifier, and what a leaked earlier file still holds drops out of the model there; the receive loop uses a handler for one file and never gets to that.
- CCodec.RelayMessageDecode, CCodec.AckDecode and CCodec.FileBeginDecode are functions on byte strings; the out-parameters they fill in C are their results.
- Collision resistance: the hash is the function FIPS 180-4 defines, nothing more.
