# Verification of the INO-A9 camera client

The repository talks to a small camera over PPRPC, a framed and partly encrypted protocol on TCP. This project models
the client as one connected stack in Dafny 4.11 and proves what each layer and the whole promise, for every input,
every run and every interleaving. `dafny verify dfyconfig.toml` checks all of it.

| layer | files |
|---|---|
| varints, packets, incremental framing | `Varint`, `Pprpc`, `Framing` |
| CBC and PKCS#7 over any block cipher, key messages, RPC commands | `Crypto`, `Keys`, `Rpc` |
| protobuf fields, command payloads, the intrusion schedule | `Protobuf`, `Intrusion` |
| MJPEG reassembly and its inversion of the sender | `Reassembler`, `ReassemblyLaws`, `Sender` |
| the handshake as a function of what arrives, and when it succeeds | `Messages`, `Selections`, `Handshake`, `HandshakeLaws`, `HandshakeErrors`, `HandshakeFailures` |
| what is sent and when, and what the turns of the media loop come to | `Timeline`, `LoopLaws` |
| packet queue, media loop, one whole connection | `Client`, `Session`, `Delivery`, `Chunkings`, `Witnesses` |
| pending commands shared by callers, reader and closer | `Pending`, `PendingInvariants`, `PendingSafety`, `PendingReplies`, `PendingTheorems`, `PendingProgress`, `PendingReader`, `PendingLimits` |
| the state shared with viewers | `Media`, `AudioLog`, `Sampling`, `Timing` |

The main results build on each other. Framing turns a byte stream into packets independently of chunk boundaries
(`Framing.ChunkingIrrelevant`, `Framing.FramingComplete`). The reassembler, a class over four dictionaries, runs one
independent automaton per AV sequence and returns a frame exactly for a clean run of fragments
(`ReassemblyLaws.DeliveredIff`), so it inverts the documented sender under any interleaving (`Sender.TrafficDelivers`).
What `recv` completes together forms a batch, and the handshake takes whole batches: `Handshake.StartOutcome` is the
outcome of everything before the media loop as a function of the list of batches, a connection starts exactly when the
batches hold the awaited answers in the right places (`HandshakeLaws.StartsIff`), and a run that no deadline ends comes
exactly as far as that function says (`Session.RunConnection`). The media loop leaves a list of turns: each names the
readings of the clock it took, the packets it took and processed, the heartbeat and replies it sent, and the frames it
delivered, and obeys the loop's rules (`Timeline.Turns`, `Timeline.Ends`). From these rules alone follows that nothing is
lost or sent twice (`LoopLaws.LoopDelivers`) and that heartbeats and timeouts keep time by the clock. For a camera that
answers each request after it was asked, a run of any length delivers the images sent, unless an answer, a packet or a
frame misses its own deadline (`Delivery.RunOverCamera`). Beside it, the pending-command protocol is a transition system
of atomic steps whose invariant holds after every interleaving (`PendingTheorems.RunKeepsInv`); there is no deadlock
(`PendingProgress.SomeCallCanGo`), a `close` under way ends by finitely many of its own steps with every waiting
command woken (`PendingProgress.CloserEnds`), and the reader's own steps lead from one connection to the next
(`PendingReader.ReaderConnects`).

Functions that the methods and their contracts share have laws that say what they are by other means: blocks and texts
by position (`Crypto.EncryptedBlock`, `Keys.AvKeyIs`, `Varint.DecodeIff`), filters by the items they pick and the places
these stand at (`Basics.Picks` in `Selections`), arrivals by the stream up to the first empty `recv`
(`HandshakeLaws.ArrivalsAreTheStream`), and failures by the packet that decides them (`HandshakeFailures.AwaitIs`).

How the environment is represented:

- The socket is a list of `recv` outcomes (bytes, timeout, end of stream); clocks are functions of the number of
  readings, nondecreasing where the code uses the monotonic clock. Times are integer milliseconds. Every recorded time
  is named by its reading, so that it cannot differ from what the clock showed; monotonic and wall-clock readings are
  counted together.
- Every byte string sent on a connection is one line of a log: a request, the reply to a time-sync request with the
  wall-clock reading it carries, or a heartbeat (`Client.CameraClient.Logged`).
- AES is any pair of mutually inverse maps on 16-byte blocks per key, MD5 any function to 32 bytes. CBC (NIST SP 800-38A,
  section 6.2) and PKCS#7 padding (RFC 5652, section 6.3) are built on them. Varints and fields follow the Protocol
  Buffers encoding specification, sections "Base 128 Varints" and "Message Structure"; the image markers are those of
  ITU-T T.81, Table B.1.
- A run that uses up its input stops as `Blocked`: it waits in `recv`. Where two seconds end the wait for the initial
  time syncs, `cut` is the number of batches read in it and `wait` the place at which it began; `None` means that they do
  not. For viewers, `others` lists what the other threads publish at each moment in which the viewer does not hold the
  lock.
- A request is recorded with the reading before which it was sent and the number of batches read by then. Every record
  of a run agrees with the others: the batches and the log are in the order of their readings, and a batch was read by
  a request's reading if and only if the request counts it (`Timeline.Paced`). So a deadline that is counted from a
  request is counted from a moment after everything read and sent before it.
- In `Pending` a step is one region under a lock, or one access to a field that no lock guards: the socket, the unlocked
  reset of the counter in `connect`, and each record's response, error and event are separate locations. A racing
  `close` that finds the socket gone raises, as the code does. A heartbeat takes its number and is sent in one step,
  since no command waits for it.

What the proofs found:

- The time-sync reply echoes the request timestamp, as `docs/protocol.md` lines 72-73 say, if and only if it is below
  2^64; larger values, which the reader accepts, come back modulo 2^64 (`Protobuf.TimeSyncReadsBack`). 2^64 itself comes
  back as 0 (`Protobuf.TimestampIsLost`).
- A reply can be taken for another command's answer if and only if the two requests were numbered on different
  connections (`PendingTheorems.ReplyIsOwnIff`); `PendingLimits.LateReplyCanCrossConnections` gives a run.
- Whether a connection starts depends on how `recv` divides the bytes. A wait of the handshake takes a whole batch and
  queues what it does not await, and only the media loop reads the queue; so an answer that shares a batch with the end
  of an earlier wait, or comes before it, is lost. With one answer per request and no deadline a connection starts if
  and only if the answers lie in later and later batches, with two time syncs strictly between the second and the third
  (`HandshakeLaws.StartsIffInOrder`; `HandshakeLaws.StartsIff` for every input). Two runs without a late answer, packet
  or frame over one readable stream that has frames and whose grants agree deliver the same frames if and only if both
  start or neither does (`Session.SameFramesIff`). `Chunkings.CoalescedAnswerLosesTheStream` gives one stream that
  delivers all its frames when the first two answers have chunks of their own and none when they share one, and
  `Witnesses.CoalescedAnswerLosesTheFrame` one with a frame.
- When a camera grants several session prefixes, the last one in the first answering batch counts, so the division also
  decides the key: `Chunkings.TwoGrantsDivide`, and `Witnesses.GrantsDivideTheFrame` with a frame that only one of the
  two prefixes opens. When all grants agree it does not (`Session.GrantIsFirst`).
- Two time-sync requests are answered before the video is requested, as `docs/protocol.md` lines 66-67 demand, unless two
  seconds, counted from the moment after the synchronisation answer, end the wait for them
  (`Client.CameraClient.BeginVideo`).

## Model

| member | source | states |
|---|---|---|
| Varint.EncodeVarintLoop | ino_a9_bridge/src/wificam_bridge/pprpc.py:78-87 | the loop that emits seven bits a round computes the recursive reference encoding of every non-negative integer |
| Varint.DecodeVarintLoop | ino_a9_bridge/src/wificam_bridge/pprpc.py:64-75 | the loop that accumulates bytes at a growing shift computes the reference decoder at every offset and byte limit: value, end, truncation and oversize |
| Varint.DecodeOfEncode | ino_a9_bridge/src/wificam_bridge/pprpc.py:64-87 | at any offset and before any suffix, an encoded value decodes to itself and its exact end if and only if it is below 2^(7n) for limit n; otherwise it is oversized |
| Varint.EncodeIsShortest | ino_a9_bridge/src/wificam_bridge/pprpc.py:64-87 | no accepted form of a value is shorter than its encoding, and one of equal length is the encoding |
| Varint.EncodedLength | ino_a9_bridge/src/wificam_bridge/pprpc.py:78-87 | an encoding takes at most n bytes if and only if the value is below 2^(7n) |
| Varint.EncodePrefixFree | ino_a9_bridge/src/wificam_bridge/pprpc.py:78-87 | no encoding is a proper prefix of another |
| Varint.DecodeExtends | ino_a9_bridge/src/wificam_bridge/pprpc.py:64-75 | every answer but truncation is unchanged by further bytes |
| Varint.DecodeOfCut | ino_a9_bridge/src/wificam_bridge/pprpc.py:64-75 | an accepted varint cut before its end is always truncated, never another value |
| Varint.DecodeIff | ino_a9_bridge/src/wificam_bridge/pprpc.py:64-75 | decoding succeeds if and only if the bytes at the offset are continuation bytes and one last byte within the limit, and then the value is the sum of their seven-bit groups by position |
| Varint.DecodeFailsIff | ino_a9_bridge/src/wificam_bridge/pprpc.py:64-75 | a varint is truncated if and only if the data end, within the limit, behind continuation bytes only, and oversized if and only if the limit is used up by them |
| Varint.EncodedIs | ino_a9_bridge/src/wificam_bridge/pprpc.py:78-87 | the encoding is continuation bytes and one last byte whose seven-bit groups, by position, sum up to the value |
| Pprpc.ParseOfEncodedFrame | ino_a9_bridge/src/wificam_bridge/pprpc.py:108-151 | a framed body parses to that body if and only if it is shorter than 2^28 bytes; otherwise its length is refused as oversized |
| Pprpc.ParseOfEncodedRpc | ino_a9_bridge/src/wificam_bridge/pprpc.py:178-201 | every field and the payload of an RPC body survive encoding and parsing if and only if sequence, command and response code are below 2^28 |
| Pprpc.ParseOfEncodedAv | ino_a9_bridge/src/wificam_bridge/pprpc.py:204-224 | every field and the payload of an AV body survive if and only if channel, sequence and encrypted length are below 2^28 and the timestamp is below 2^63 |
| Pprpc.HeaderIff | ino_a9_bridge/src/wificam_bridge/pprpc.py:108-135 | a stream header is accepted if and only if the first byte is sixteen times a type from 3 to 8 plus a flag from 8 to 10 and a varint of at most four bytes, the length, follows |
| Pprpc.UdpIsTcpBehindMagic | ino_a9_bridge/src/wificam_bridge/pprpc.py:108-135 | a datagram header is a stream header behind the bytes 51 70; without them a datagram is refused and detection falls back to the stream |
| Pprpc.FrameKinds | ino_a9_bridge/src/wificam_bridge/pprpc.py:138-151 | of a framed body types 4 and 5 are read as RPC and 6 as AV, with the errors of those readers, and 3, 7 and 8 are kept as they are |
| Pprpc.RpcIff | ino_a9_bridge/src/wificam_bridge/pprpc.py:178-201 | an RPC body is accepted if and only if it is a varint for the sequence, one for the command, a byte of four times the encryption plus the type 0 or 1, in a response a varint for the code, and the payload, varints of at most four bytes, the shortest form or not |
| Pprpc.RpcRefusals | ino_a9_bridge/src/wificam_bridge/pprpc.py:178-190 | a type is unsupported if and only if the byte behind the two varints says 2 or 3, and missing if and only if the body ends behind them |
| Pprpc.AvIff | ino_a9_bridge/src/wificam_bridge/pprpc.py:204-224 | an AV body is accepted if and only if it is the byte of key-frame bit and format, the byte of encryption, varints for channel, sequence, timestamp of at most nine bytes, and encrypted length, and the payload |
| Framing.IterTcpPackets | ino_a9_bridge/src/wificam_bridge/pprpc.py:155-176 | the offset loop returns the packets, remainder or error of the recursive stream parser, and terminates |
| Framing.ParseAppend | ino_a9_bridge/src/wificam_bridge/camera.py:549-564 | a chunk parsed behind the carried remainder continues the parse of the stream: same packets, same remainder, same error |
| Framing.ChunkInvariance | ino_a9_bridge/src/wificam_bridge/camera.py:549-564 | parsing chunk by chunk with the carried remainder gives the packets, remainder and error of parsing the concatenation |
| Framing.ChunkingIrrelevant | ino_a9_bridge/src/wificam_bridge/camera.py:549-564 | two ways of cutting the same stream into chunks give the same packets, remainder and error |
| Framing.ErrorsPersist | ino_a9_bridge/src/wificam_bridge/pprpc.py:155-176 | no continuation of a stream makes its error go away or changes it |
| Framing.FramingComplete | ino_a9_bridge/src/wificam_bridge/pprpc.py:155-176 | a list of well-formed packets followed by a proper prefix of another is returned as exactly that list and that prefix |
| Framing.FramingSound | ino_a9_bridge/src/wificam_bridge/pprpc.py:155-176 | whatever is returned is a cut of the stream into well-formed packets and a remainder that holds no complete packet |
| Framing.PacketIsWhole | ino_a9_bridge/src/wificam_bridge/pprpc.py:138-145 | a packet with bytes behind it is refused where exactly one is wanted and otherwise read as without them; cut short it is incomplete |
| Framing.RemainderBound | ino_a9_bridge/src/wificam_bridge/pprpc.py:155-176 | a returned remainder has at most 2^28 + 3 bytes |
| Framing.RemainderBoundReached | ino_a9_bridge/src/wificam_bridge/pprpc.py:155-176 | the bound is tight: a remainder of exactly 2^28 + 3 bytes exists |
| Crypto.CbcDecryptsEncrypted | ino_a9_bridge/src/wificam_bridge/crypto.py:36-51 | CBC decryption undoes CBC encryption over any invertible block cipher, key and IV |
| Crypto.CbcEncryptsDecrypted | ino_a9_bridge/src/wificam_bridge/crypto.py:36-51 | CBC encryption undoes CBC decryption, so every block-aligned ciphertext is the encryption of exactly one plaintext |
| Crypto.EncryptedBlock | ino_a9_bridge/src/wificam_bridge/crypto.py:16-44 | every block of ciphertext is the encryption of that block of plaintext XOR the block of ciphertext before it, the IV before the first |
| Crypto.DecryptedBlock | ino_a9_bridge/src/wificam_bridge/crypto.py:25-51 | every block of plaintext is the decryption of that block of ciphertext XOR the block of ciphertext before it, the IV before the first |
| Crypto.XorDigits | ino_a9_bridge/src/wificam_bridge/crypto.py:36-51 | a binary digit of the XOR is 1 exactly where the digits of its operands differ |
| Crypto.PadSays | ino_a9_bridge/src/wificam_bridge/crypto.py:19-20 | padding adds 1 to 16 bytes up to a whole block, each of which is their number |
| Crypto.Refusals | ino_a9_bridge/src/wificam_bridge/crypto.py:16-58 | keys are accepted at 16, 24 and 32 bytes and IVs at 16; unpadded text must be whole blocks, padded ciphertext whole blocks and not empty |
| Crypto.UnpadIffPadded | ino_a9_bridge/src/wificam_bridge/crypto.py:19-20 | removing PKCS#7 padding yields a text if and only if the input is that text padded |
| Crypto.DecryptPaddedIffEncrypted | ino_a9_bridge/src/wificam_bridge/crypto.py:16-33 | padded decryption returns a plaintext if and only if the ciphertext is its padded encryption under the same key and IV |
| Crypto.DecryptUnpaddedIffEncrypted | ino_a9_bridge/src/wificam_bridge/crypto.py:36-51 | unpadded decryption returns a plaintext if and only if the ciphertext is its unpadded encryption |
| Keys.RpcKeySuffixInjective | ino_a9_bridge/src/wificam_bridge/pprpc.py:91-99 | different (sequence, command, type) triples are hashed as different messages |
| Keys.AvKeySuffixInjective | ino_a9_bridge/src/wificam_bridge/pprpc.py:102-106 | different (sequence, timestamp, channel) triples are hashed as different messages |
| Keys.DecimalIs | ino_a9_bridge/src/wificam_bridge/pprpc.py:98 | a number is printed as decimal digits, the most significant first and without leading zeros, whose powers of ten sum up to it |
| Keys.RpcKeyIs | ino_a9_bridge/src/wificam_bridge/pprpc.py:91-99 | an RPC key is the digest of the prefix and a text in which a reader finds the command after ",ID:", the sequence after "-SEQ:" and the type after "-RPC:" |
| Keys.AvKeyIs | ino_a9_bridge/src/wificam_bridge/pprpc.py:102-106 | an AV key is the digest of the prefix and a text in which a reader finds the sequence after ",AVSeq:", the timestamp after "-TT:" and the channel after "-AVChannel:" |
| Rpc.PackRoundTrip | ino_a9_bridge/src/wificam_bridge/camera.py:126-160 | a packed command starts with the byte 0x48, and packing, parsing and decrypting return every header field and the plaintext, the empty one included, if and only if sequence, command, response code and padded body length are below 2^28; otherwise the parser refuses the packet |
| Rpc.SealedBlocks | ino_a9_bridge/src/wificam_bridge/camera.py:138-141 | a sealed payload is, block by block, the padded text chained under the digest of the prefix and the text that names command, sequence and type, with the first half of that key as IV |
| Rpc.OpensIff | ino_a9_bridge/src/wificam_bridge/camera.py:153-160 | a payload opens to a text if and only if both are empty, or the encryption type is 3 and it is that text sealed under the key of the packet's own numbers |
| Protobuf.ParseOfEncoded | ino_a9_bridge/src/wificam_bridge/commands.py:100-105 | the reference field parser inverts the field encoder on every list of well-formed fields |
| Protobuf.FieldIff | ino_a9_bridge/src/wificam_bridge/commands.py:76-97 | a field is parsed if and only if one lies there: a tag varint of eight times the number plus the wire type, and a varint, eight bytes, a length and as many bytes, or four bytes |
| Protobuf.FieldRefusals | ino_a9_bridge/src/wificam_bridge/commands.py:76-97 | a wire type is refused if and only if the tag says 3, 4, 6 or 7, and a field is truncated if and only if its data reach beyond the payload |
| Protobuf.ReadResponseValue | ino_a9_bridge/src/wificam_bridge/commands.py:76-97 | the getter loop returns the first varint field 1 of the reference parse, even before a later malformed field; it skips the other three wire types and fails where the parse fails |
| Protobuf.ResponseOfEncoded | ino_a9_bridge/src/wificam_bridge/commands.py:76-97 | over every concatenation of well-formed fields the getter returns the first varint field 1, or nothing when there is none |
| Protobuf.ReadFirstVarint | ino_a9_bridge/src/wificam_bridge/camera.py:590-600 | the loop returns what a scan of the reference parse for the first varint field with the number returns, errors included |
| Protobuf.ReadFirstBytes | ino_a9_bridge/src/wificam_bridge/camera.py:603-617 | the loop returns what a scan of the reference parse for the first length-delimited field with the number returns, errors included |
| Protobuf.ScanForIff | ino_a9_bridge/src/wificam_bridge/camera.py:590-617 | a scan finds a field if and only if it is the first one with its number and every field up to it has the wanted wire type |
| Protobuf.ScanFailsIff | ino_a9_bridge/src/wificam_bridge/camera.py:590-617 | a scan fails for the wire type if and only if a field of another type, even one broken off behind its tag, comes before any field with the number, and for a missing field if and only if only whole fields of the type with other numbers are there |
| Protobuf.FieldLayout | ino_a9_bridge/src/wificam_bridge/camera.py:78-89 | a field is the varint of eight times its number plus its wire type and then its varint, its eight or four bytes, or a length and that many bytes |
| Protobuf.BuildersRefuse | ino_a9_bridge/src/wificam_bridge/camera.py:78-123 | builders refuse exactly field numbers that are not positive and negative times and acknowledgements; a time-sync request is refused exactly with the error of reading its first field 1 |
| Protobuf.AuthReadsBack | ino_a9_bridge/src/wificam_bridge/camera.py:92-97 | the authentication request carries the user in field 2 and the password in field 3 |
| Protobuf.TimeSyncReadsBack | ino_a9_bridge/src/wificam_bridge/camera.py:100-108 | a time-sync response carries the timestamp modulo 2^64, -30 as 2^64 - 30, and the clock modulo 2^64; it echoes the request timestamp if and only if that is below 2^64 |
| Protobuf.TimestampIsLost | docs/protocol.md:72-73 | the echo has a counterexample that the reader accepts: a request with timestamp 2^64 is answered with 0 |
| Protobuf.HeartbeatReadsBack | ino_a9_bridge/src/wificam_bridge/camera.py:111-123 | a heartbeat carries the clock in field 1 and, exactly when there is one, the acknowledged sequence in field 4 |
| Intrusion.MakeScheduleIff | ino_a9_bridge/src/wificam_bridge/controls.py:17-32 | a schedule can be constructed if and only if its days are nonempty, strictly increasing and within 0..6, its times have minute precision and no zone, and it does not cross midnight |
| Intrusion.PayloadIsFields | ino_a9_bridge/src/wificam_bridge/commands.py:62-73 | the payload is a well-formed nesting of protobuf fields in which a midnight start and a disabled flag are left out |
| Intrusion.IntrusionRoundTrip | ino_a9_bridge/src/wificam_bridge/commands.py:62-73 | a reference decoder, which insists on the fixed field 4 of value 1, recovers the flag, the days and both times from the payload of every valid schedule |
| Intrusion.IntrusionInjective | ino_a9_bridge/src/wificam_bridge/commands.py:62-73 | different settings have different payloads |
| Intrusion.SecondsCount | ino_a9_bridge/src/wificam_bridge/commands.py:108-111 | seconds count from midnight, sixty for every minute on the way to a time |
| Intrusion.ScheduleRefusals | ino_a9_bridge/src/wificam_bridge/controls.py:17-32 | which error a refused schedule gets: days first, out of range before unsorted, and times before their order |
| Reassembler.MJPEGReassembler.constructor | ino_a9_bridge/src/wificam_bridge/camera.py:179-187 | a fresh reassembler satisfies the representation invariant with an empty history |
| Reassembler.MJPEGReassembler.Drop | ino_a9_bridge/src/wificam_bridge/camera.py:249-253 | all four dictionaries forget one sequence and keep every other |
| Reassembler.MJPEGReassembler.Store | ino_a9_bridge/src/wificam_bridge/camera.py:208-247 | appending an accepted fragment keeps the sizes equal to the stored lengths and under the cap, sets metadata only once, and a final fragment leaves nothing behind |
| Reassembler.MJPEGReassembler.Advance | ino_a9_bridge/src/wificam_bridge/camera.py:189-247 | the four-dictionary update is one step of the automaton of the packet's own sequence, keeps that sequence's four entries consistent, and touches no other sequence |
| Reassembler.MJPEGReassembler.Push | ino_a9_bridge/src/wificam_bridge/camera.py:189-247 | the invariant over all pushes (key sets coincide, size is the sum of the fragments within the cap, fragment count is expected index minus 1, expected index in 2..255) is kept; the result is a function of the history of the packet's own sequence; a well-marked 0xFF leaves no state |
| ReassemblyLaws.SlotTracksRun | ino_a9_bridge/src/wificam_bridge/camera.py:197-218 | what is stored for a sequence is exactly the clean run 1, 2, ..., k at the end of its packets, with the first nonzero encrypted length as metadata |
| ReassemblyLaws.RunIsTracked | ino_a9_bridge/src/wificam_bridge/camera.py:197-218 | conversely a clean run at the end of a sequence's packets is what is stored, whatever came before |
| ReassemblyLaws.DeliveredIff | ino_a9_bridge/src/wificam_bridge/camera.py:189-247 | a frame is returned if and only if the sequence's own packets end, with this one, in a clean run 1, ..., k, 0xFF within the cap that carries it |
| ReassemblyLaws.FinishedIff | ino_a9_bridge/src/wificam_bridge/camera.py:224-247 | the image is the prefix of the head-decrypted concatenation that starts with the bytes FF D8 and ends with the first FF D9 at index 2 or later; the encrypted length must be positive, block-aligned and within the assembled bytes |
| ReassemblyLaws.OpenedBlocks | ino_a9_bridge/src/wificam_bridge/camera.py:234-241 | the opened frame is, block by block, the CBC decryption of its head under the digest of the session prefix and the text that names sequence, timestamp and channel, with the second half of that key as IV; behind the head the bytes are as they came |
| ReassemblyLaws.CompleteRunIff | ino_a9_bridge/src/wificam_bridge/camera.py:189-247 | a complete run in payload bytes: 2 to 255 packets of format 4 whose first bytes are 1, the index 1, 2, ... or 0xFF at the end, and 0, with no more bytes behind them than the cap |
| ReassemblyLaws.DeliveredBounds | ino_a9_bridge/src/wificam_bridge/camera.py:189-247 | a returned frame comes from 2 to 255 fragments and has between 4 and max_frame_bytes bytes |
| Selections.OwnPicks | ino_a9_bridge/src/wificam_bridge/camera.py:189-197 | the own packets of a sequence are exactly those of format 4 and at least three bytes with its number, in place |
| Sender.NonInterference | ino_a9_bridge/src/wificam_bridge/camera.py:189-253 | histories that agree on one sequence give it the same outputs and stored state, equal to those of pushing only its own packets |
| Sender.SentRunCarriesImage | docs/protocol.md:114-125 | fragmenting a JPEG with any trailer, any block-aligned encrypted head and any cut into 2 to 255 fragments produces a run that carries exactly the image |
| Sender.InterleavedDelivery | ino_a9_bridge/src/wificam_bridge/camera.py:189-247 | under arbitrary interleaving and any earlier history each sent image is returned byte for byte exactly at its 0xFF fragment, and its other fragments return nothing |
| Sender.TrafficDelivers | ino_a9_bridge/src/wificam_bridge/camera.py:189-247 | over a whole traffic of distinct sequences the reassembler returns the images sent, in the order of their last fragments, and nothing else |
| Sender.SendFrameIsSent | docs/protocol.md:114-125 | a sender exists for every image, trailer, aligned head length and cut into 2 to 255 pieces, so the delivery theorems are not empty |
| Client.CameraClient.Receive | ino_a9_bridge/src/wificam_bridge/camera.py:549-564 | hands out exactly the next batch that the rest of the input completes behind the carried remainder and leaves the later ones ahead; an empty result means that the deadline passed, an error that no batch is left and the input ends that way |
| Client.CameraClient.HandleRpcRequest | ino_a9_bridge/src/wificam_bridge/camera.py:533-547 | exactly the time-sync requests are answered: what is sent is the reply for the request's own content and sequence number at the wall-clock reading taken, and the log says so; an undecipherable one sends nothing |
| Client.CameraClient.Sift | ino_a9_bridge/src/wificam_bridge/camera.py:497-509 | a batch yields its last answer and queues everything else in order but time-sync requests; what is sent meanwhile is one reply to each of those, in order, each with a reading taken in the call |
| Messages.DeferredKeepsMedia | ino_a9_bridge/src/wificam_bridge/camera.py:494-531 | queueing during the handshake loses no AV packet, keeps their order and leaves no time-sync request |
| Messages.LastAnswerIs | ino_a9_bridge/src/wificam_bridge/camera.py:497-505 | the answer of a batch is its last response with the awaited sequence and command |
| Selections.KeptPicks | ino_a9_bridge/src/wificam_bridge/camera.py:494-531 | what a wait of the handshake queues is the batch without its answers and time-sync requests, each packet in place and no other |
| Selections.SyncPicks | ino_a9_bridge/src/wificam_bridge/camera.py:533-535 | the time-sync requests among packets are exactly the requests with command 107, in place |
| Selections.AnsweredPicks | ino_a9_bridge/src/wificam_bridge/camera.py:533-547 | the requests a log shows as answered are exactly those of its reply lines, in place |
| Selections.AvPicks | ino_a9_bridge/src/wificam_bridge/camera.py:380 | the AV packets among packets are exactly those, in place |
| Selections.RequestPicks | ino_a9_bridge/src/wificam_bridge/camera.py:478-486 | the requests a log shows are exactly its request lines, in place |
| Selections.BeatPicks | ino_a9_bridge/src/wificam_bridge/camera.py:356-366 | the heartbeats a log shows are exactly its heartbeat lines, in place |
| Client.CameraClient.WaitResponse | ino_a9_bridge/src/wificam_bridge/camera.py:494-516 | the wait comes out as the batches ahead decide: the first batch with an answer to the sequence and command ends it, its last answer counts, any code but 0 raises it; input and packets are conserved and only replies are sent; the timeout error differs from that only when connect_timeout has passed since the wait's first reading and no batch read in it holds an answer; every batch was read by a recv begun less than connect_timeout after the wait's first reading |
| Client.CameraClient.AnswerInitialTimeSyncs | ino_a9_bridge/src/wificam_bridge/camera.py:518-531 | ends with two more time-sync requests answered on the wire, in whole batches, or with two seconds passed on the clock after the recorded number of batches; every packet read is answered or queued in order; every batch was read by a recv begun less than two seconds after the wait's first reading |
| Client.CameraClient.BeginVideo | docs/protocol.md:66-67 | when two seconds do not end the wait, two time-sync requests were answered before the request 2610 was sent; when they do, that request goes out two seconds or more by the clock after the wait began, which was after the batch with the synchronisation answer was read and every earlier time sync answered; either way it goes out when exactly the batches of the waits before it were read |
| Client.CameraClient.Connect | ino_a9_bridge/src/wificam_bridge/camera.py:291-326 | connecting succeeds or fails as the batches of the input decide, with the session prefix they grant, unless the last request has no answer in any batch read since and connect_timeout has passed since it was sent, which was after the batches it counts and before all others; the requests on the wire are the first ones of authentication, synchronisation and video start, in order, each sent when exactly the batches of the waits before it were read, and two seconds that end the wait for time syncs are counted from its own beginning; success means all three, accepted, and a queue that holds exactly the AV packets read so far; failure leaves the client closed |
| Messages.GrantedPrefixIff | ino_a9_bridge/src/wificam_bridge/camera.py:302-310 | a prefix is granted if and only if the payload opens, its first field 1 behind length-delimited fields only is the prefix, and that is 32 hexadecimal digits in either case; the prefix is invalid if and only if there is such a field that is anything else |
| Delivery.RequestOnWire | ino_a9_bridge/src/wificam_bridge/camera.py:300-332 | whoever parses and decrypts the start-up requests finds, under sequences 1 to 4, commands 2650 with user and password, 106 with 1 in field 1, 2610 with 30 in field 2, and 2614 without content |
| Delivery.AnswerOnWire | ino_a9_bridge/src/wificam_bridge/camera.py:497-504 | on the wire a response answers exactly the request with its sequence and command, a request answers none, and exactly the requests 107 are time syncs |
| Messages.AudioOfferIff | ino_a9_bridge/src/wificam_bridge/camera.py:334-340 | the audio answer is acceptable if and only if its payload opens and its first field 5 is 21 (A-law) and its first field 6 is 8000, with nothing but varint fields before each of them; the format is unsupported if and only if both are there and one differs |
| Client.CameraClient.StartAudio | ino_a9_bridge/src/wificam_bridge/camera.py:328-340 | starting audio comes out as the batches ahead decide, unless connect_timeout passes after request 2614 was sent without an answer; success means that request 2614 was sent as the fourth and that the camera accepted it with A-law at 8000 Hz; the queue stays complete |
| Client.CameraClient.ProcessAv | ino_a9_bridge/src/wificam_bridge/camera.py:381-390 | after each AV packet the frames, audio chunks and greatest sequence are those of the packets processed so far; a frame, and nothing else, takes one reading of the clock in this very call, and the frame deadline is that reading plus the timeout |
| Messages.ExtractAlawIff | ino_a9_bridge/src/wificam_bridge/camera.py:163-173 | a chunk is handed out if and only if the packet is unencrypted, of format 21 and on channel 0, and its payload is the bytes 1 and 0 with that chunk, which is not empty, behind them |
| Selections.AudioPicks | ino_a9_bridge/src/wificam_bridge/camera.py:383-386 | the audio callbacks over a list of packets are exactly the chunks of its audio packets, in place |
| Selections.FramePicks | ino_a9_bridge/src/wificam_bridge/camera.py:387-390 | the frames over a list of packets are exactly what the single pushes return, in place |
| Client.CameraClient.Wake | ino_a9_bridge/src/wificam_bridge/camera.py:355-366 | each turn starts with one reading of the clock, and a heartbeat is sent if and only if that reading is 500 ms or more after the last heartbeat's, or after the start; it has the next sequence number, the wall clock read next, and the greatest sequence processed |
| Client.CameraClient.Take | ino_a9_bridge/src/wificam_bridge/camera.py:367-372 | a turn takes the first queued packet at once, or the next batch of the input when nothing is queued; it comes away with nothing only when the clock shows the next heartbeat, the activity deadline or two seconds, and the recv that brings a batch was begun before the earliest of these; a failure ends the loop as the input ends |
| Client.CameraClient.Process | ino_a9_bridge/src/wificam_bridge/camera.py:373-390 | a turn reads the clock once after taking packets and processes them before its check: each time-sync request is answered once and in order, each completed frame is delivered at a reading in between; a time-sync request that cannot be answered ends the loop after the packets before it |
| Client.CameraClient.CheckDeadlines | ino_a9_bridge/src/wificam_bridge/camera.py:391-401 | the loop goes on if and only if the reading of this check lies before both deadlines, which are the readings of the last packets and of the last frame, or of the start, plus frame_timeout; the activity error has precedence |
| Client.CameraClient.TakeTurn | ino_a9_bridge/src/wificam_bridge/camera.py:355-401 | one turn keeps the loop's rules for all turns so far and makes progress, or ends the loop as the rules say |
| Client.CameraClient.Frames | ino_a9_bridge/src/wificam_bridge/camera.py:342-403 | the loop starts with the next reading of the clock, its turns obey the rules one by one with readings in order, the last one ends it for the reason given, and the frames and audio delivered, the bytes sent and the readings at which batches arrived are exactly those of its turns |
| LoopLaws.LoopDelivers | ino_a9_bridge/src/wificam_bridge/camera.py:342-403 | whatever the turns, the AV packets processed are a prefix of those heard, each used once and in order, and the replies sent answer a prefix of the time-sync requests heard, in order; when no deadline ends the loop it stops as the input decides, after all of them |
| LoopLaws.BeatsAreSpaced | ino_a9_bridge/src/wificam_bridge/camera.py:356-366 | by the readings of the clock, heartbeats are at least 500 ms apart and the first one comes 500 ms or more after the start; they are numbered consecutively |
| LoopLaws.ChecksKeepTime | ino_a9_bridge/src/wificam_bridge/camera.py:391-401 | at every check the loop passes, the clock shows less than frame_timeout since the reading of the last turn that delivered a frame, or since the start, and since that of the last turn that took packets |
| LoopLaws.TimeoutsAreDue | ino_a9_bridge/src/wificam_bridge/camera.py:391-401 | the loop ends with a timeout only when at its last check the last packets, or the last frame, are that old, and with the frame timeout only when the packets are not |
| LoopLaws.BeatsAreKept | ino_a9_bridge/src/wificam_bridge/camera.py:355-366 | a turn sends a heartbeat if and only if it starts 500 ms or more after the last heartbeat, or after the start, and acknowledges the greatest AV sequence processed |
| LoopLaws.EmptyTurnsWait | ino_a9_bridge/src/wificam_bridge/camera.py:367-372 | a turn that goes on without packets has nothing queued and has waited until a heartbeat was due, the last packets were as old as frame_timeout, or two seconds were over |
| LoopLaws.BatchesAreInTime | ino_a9_bridge/src/wificam_bridge/camera.py:367-372 | no turn waits on past its deadlines: the recv that brings a batch was begun before the next heartbeat was due, while the last packets were younger than frame_timeout, and within two seconds |
| LoopLaws.ShownRises | ino_a9_bridge/src/wificam_bridge/camera.py:387-390 | the readings at which frames are delivered come strictly one after the other, after the start and before the last check |
| HandshakeLaws.ArrivalsAreTheStream | ino_a9_bridge/src/wificam_bridge/camera.py:549-564 | for every division into chunks, up to the first empty recv: the batches are a cut of the packets of the whole stream parsed at once; the input ends as malformed exactly when that stream does not parse, with the same error, as closed exactly when it parses and there is an empty recv, and waits exactly when it parses and there is none |
| HandshakeLaws.BatchesAreCompleted | ino_a9_bridge/src/wificam_bridge/camera.py:549-564 | the batches are, one for each recv that completes any packet, exactly the packets that it adds to the parse of the stream before it |
| HandshakeLaws.StartsIff | ino_a9_bridge/src/wificam_bridge/camera.py:291-340 | a start in which no awaited answer is late succeeds with a prefix if and only if batches i < j < k (< l with audio) hold it: i is the first to answer the authentication and its last answer grants the prefix, j the first after i to answer the synchronisation, k the first to answer the video start after two time syncs behind j or after the point where two seconds end the wait for them, l the first after k to answer the audio start acceptably, all with code 0 and no unreadable time sync up to them |
| HandshakeLaws.StartsIffInOrder | ino_a9_bridge/src/wificam_bridge/camera.py:494-531 | for a camera that answers every request made in one batch, and without the two-second limit, the connection starts if and only if the answers lie in strictly later batches each, with two time syncs in the batches strictly between the second and the third |
| HandshakeLaws.CutMakesNoDifference | ino_a9_bridge/src/wificam_bridge/camera.py:518-531 | the two-second limit changes neither success nor prefix when no batch between the synchronisation and the one that starts the video answers the video start too early |
| HandshakeLaws.AskedBeforeAnswer | ino_a9_bridge/src/wificam_bridge/camera.py:300-328 | over batches that carry a start, each request is sent when no batch from the one with its answer on has been read, wherever two seconds end the wait for time syncs |
| HandshakeFailures.FaultIff | ino_a9_bridge/src/wificam_bridge/camera.py:533-537 | a packet cannot be answered if and only if it is a request 107 whose payload does not open or has no first field 1, with exactly that error |
| HandshakeFailures.FaultIgnoresClock | ino_a9_bridge/src/wificam_bridge/camera.py:536-537 | whether a time sync can be answered does not depend on the clock |
| HandshakeFailures.FirstFault | ino_a9_bridge/src/wificam_bridge/camera.py:533-547 | the fault of a list of packets is that of its first packet that cannot be answered |
| HandshakeFailures.AwaitIs | ino_a9_bridge/src/wificam_bridge/camera.py:494-516 | a wait for an answer ends at the first batch with a fault or an answer: with the fault, else as the code of the batch's last answer says, and without such a batch as the input ends |
| HandshakeFailures.SyncsAre | ino_a9_bridge/src/wificam_bridge/camera.py:518-531 | the wait for time syncs ends at the first batch by which two were answered or where two seconds end it, unless a fault or the end of the input comes first |
| HandshakeFailures.StartIsItsWaits | ino_a9_bridge/src/wificam_bridge/camera.py:291-340 | a start goes through its waits in order and fails exactly as the first of them that fails, while connecting or, at the audio answer, while starting the audio |
| HandshakeFailures.HeardIs | ino_a9_bridge/src/wificam_bridge/camera.py:355-390 | what is heard ends before the first time sync that cannot be answered, and the loop stops with its error; without one everything is heard and the loop stops as the input ends |
| HandshakeErrors.StartFailureIsExplained | ino_a9_bridge/src/wificam_bridge/camera.py:291-340 | a failed start that no deadline forced is explained by what arrived: the input ends that way, a command was refused with exactly the code reported under its own sequence, or a time sync, authentication or audio answer is unreadable or unacceptable with exactly this error |
| HandshakeErrors.MediaStopIsExplained | ino_a9_bridge/src/wificam_bridge/camera.py:367-380 | however the media loop stops without a deadline, the arrivals explain it in the same sense |
| HandshakeErrors.ExplainedIsJustified | ino_a9_bridge/src/wificam_bridge/camera.py:549-564 | in terms of the raw input: the peer closed after a stream that parses, the stream up to the first empty recv fails to parse with this very error, or a packet that arrived is faulty with this very error |
| HandshakeErrors.WaitingIsOpen | ino_a9_bridge/src/wificam_bridge/camera.py:549-564 | a run that waits for more has met no empty recv and no byte that does not parse |
| Session.StartUp | ino_a9_bridge/src/wificam_bridge/session.py:143-147 | connecting and starting audio come out as the batches of the input decide, unless the last request stays unanswered for connect_timeout after it was sent, which was after the batch that ended the wait before it was read; they leave a complete queue, a granted prefix, the three or four requests on the wire and, when audio was asked for, an agreed format |
| Session.RunConnection | ino_a9_bridge/src/wificam_bridge/session.py:141-152 | end to end, for every input, division into chunks and timeout: the phase reached, the session prefix, the stop and the frames are those of the handshake and media functions of the batches, unless the run ends in a timeout; a timeout while starting means that no batch read since the last request answers it and that connect_timeout has passed since that request was sent, after the answers before it were read; two seconds that end the wait for time syncs are counted from the beginning of that wait; in the media phase the loop begins after all readings, batches and lines of the start-up, its turns obey the rules and its timeout is that of its last turn; the bytes sent are exactly the requests, one reply to each time-sync request heard, in order, and the heartbeats; a run waits for more only when no recv was empty; in the media phase it has then delivered the media of the whole stream and answered each of its time syncs once; every other error is justified by the input |
| Session.DeliveredIs | ino_a9_bridge/src/wificam_bridge/camera.py:291-403 | over a readable stream a division into chunks delivers the frames of the whole stream parsed at once, under the prefix its batches grant, when its batches start the connection, and nothing when they do not |
| Session.SameFramesIff | ino_a9_bridge/src/wificam_bridge/camera.py:494-516 | two runs over two divisions of one readable stream that has frames and whose grants agree, wherever two seconds end their waits for time syncs, deliver the same frames if and only if the batches of both start the connection or those of neither do |
| Session.GrantIsFirst | ino_a9_bridge/src/wificam_bridge/camera.py:300-310 | when the camera's authentication responses agree, the session prefix is that of the first one, whatever the chunking |
| Session.FramesFit | ino_a9_bridge/src/wificam_bridge/camera.py:179-183 | every frame of a stream has between 4 and 2000000 bytes |
| Chunkings.CoalescedAnswerLosesTheStream | ino_a9_bridge/src/wificam_bridge/camera.py:494-516 | the condition is needed: for any video, the same bytes with one grant deliver the whole stream when the authentication and synchronisation answers come in chunks of their own, and hang while connecting, without frames, when they share one |
| Witnesses.CoalescedAnswerLosesTheFrame | ino_a9_bridge/src/wificam_bridge/camera.py:494-516 | for every cipher, digest and prefix: one stream with a frame of two fragments is delivered as exactly that image with the first two answers in chunks of their own, and as nothing with both in one |
| Chunkings.TwoGrantsDivide | ino_a9_bridge/src/wificam_bridge/camera.py:300-310 | for any video and any two prefixes, the same bytes with two grants deliver the frames under the first when the grants come in chunks of their own and under the second when they share one |
| Witnesses.GrantsDivideTheFrame | ino_a9_bridge/src/wificam_bridge/camera.py:300-310 | with a digest that tells the two prefixes apart, one stream with two grants delivers its image when the grants have chunks of their own and nothing when they share one |
| Delivery.FragmentOnWire | ino_a9_bridge/src/wificam_bridge/pprpc.py:204-224 | a video fragment survives framing and parsing if and only if its numbers and body fit their varints |
| Delivery.CameraStreamDelivers | ino_a9_bridge/src/wificam_bridge/camera.py:342-390 | the frames of a byte stream whose packets carry documented frames, interleaved in any way and followed by a cut packet, are exactly the sent images in order |
| Delivery.RunOverCamera | ino_a9_bridge/src/wificam_bridge/session.py:141-152 | progress: over a documented camera stream whose answers each lie in a later batch, a run of any length reaches the media loop with the granted prefix, waits for more and has delivered exactly the sent images in order, unless an answer's batch was not read by connect_timeout after its own request was sent, or no packet, or no frame, had come for frame_timeout at the check of the last turn |
| Delivery.MaxSequenceIff | ino_a9_bridge/src/wificam_bridge/camera.py:381-382 | the acknowledged number is the greatest AV sequence processed, and absent only before the first AV packet |
| Delivery.AcksNeverDecrease | ino_a9_bridge/src/wificam_bridge/camera.py:357-365 | acknowledgements never decrease from one heartbeat of a loop to a later one |
| LoopLaws.HeartbeatRate | ino_a9_bridge/src/wificam_bridge/camera.py:356-366 | any window of W milliseconds of the clock holds at most W / 500 + 1 heartbeats |
| Delivery.HeartbeatOnWire | ino_a9_bridge/src/wificam_bridge/camera.py:478-486 | whoever parses and decrypts a heartbeat finds command 107 under its own sequence, the wall-clock reading and the acknowledgement |
| Delivery.TimeSyncReplyOnWire | ino_a9_bridge/src/wificam_bridge/camera.py:533-547 | whoever parses and decrypts a time-sync reply finds a response with code 0 under the request's sequence that carries the request's timestamp, -30 and the clock |
| PendingTheorems.StepKeepsInv | ino_a9_bridge/src/wificam_bridge/camera.py:429-468 | every atomic step of every caller, the reader and the closer keeps the protocol invariant |
| PendingTheorems.RunKeepsInv | ino_a9_bridge/src/wificam_bridge/camera.py:429-468 | the invariant holds after every interleaving of any number of callers, the reader over any number of connections, and the closer |
| PendingTheorems.NoLostWakeUp | ino_a9_bridge/src/wificam_bridge/camera.py:572-587 | a caller blocked on an unset event is in the table or in the snapshot of a running _fail_pending |
| PendingTheorems.CloseWakesEveryone | ino_a9_bridge/src/wificam_bridge/camera.py:405-414 | once close() has finished and no connection was opened since, every blocked caller has its event set, or the reader is about to set it |
| PendingProgress.CloserEnds | ino_a9_bridge/src/wificam_bridge/camera.py:405-414 | from every reachable state close() under way has a step to take, and finitely many of its own steps end it: without a socket, with an empty table and with the error and the event set on every command that was waiting there, unless the socket was gone when it was to be closed |
| PendingProgress.ReaderCloseEnds | ino_a9_bridge/src/wificam_bridge/camera.py:402-414 | the same for a close or a _fail_pending that the reader runs, whatever made it |
| PendingProgress.CloseGoesOn | ino_a9_bridge/src/wificam_bridge/camera.py:581-587 | each step of close leads to a later place or leaves fewer commands to wake |
| PendingProgress.CloseReleases | ino_a9_bridge/src/wificam_bridge/camera.py:455-462 | a caller whose command close() finds returns with the error once both have taken their steps |
| PendingProgress.CloserCanGo | ino_a9_bridge/src/wificam_bridge/session.py:85-91 | the closer always has a step to take until it has finished or raised; it starts by asking the reader to stop and finishes by making the session unavailable, which it does not when it raises |
| PendingProgress.ReaderCanGo | ino_a9_bridge/src/wificam_bridge/session.py:141-160 | the reader always has a step to take until it has stopped or died of a close that raised |
| PendingReader.ReaderConnects | ino_a9_bridge/src/wificam_bridge/session.py:141-148 | from the top of its loop the reader's own steps close the last connection, waking its commands with an error, and bring up the next one: a new socket, the four handshake requests under 1 to 4, 5 as the next number, and the session available; asked to stop, it stops |
| PendingReader.ReaderEndsWith | ino_a9_bridge/src/wificam_bridge/camera.py:324-326 | a failed handshake in connect closes the socket and an ended stream fails every waiting command before the reader leaves; other failures leave at once |
| PendingReader.ReaderLeaves | ino_a9_bridge/src/wificam_bridge/session.py:157-160 | leaving makes the session unavailable, closes the socket, empties the table with its commands woken, and comes back to the top of the loop |
| PendingReader.BeatNeedsSocket | ino_a9_bridge/src/wificam_bridge/camera.py:357-365 | a heartbeat takes the next number; without a socket its send fails, and the stream ends with every waiting command woken with an error |
| PendingProgress.CallCanGo | ino_a9_bridge/src/wificam_bridge/camera.py:429-468 | a call waits for another thread only at the two locks |
| PendingProgress.CallGoesOn | ino_a9_bridge/src/wificam_bridge/camera.py:429-468 | every step of a call but its first brings it nearer to its end, so a call takes a bounded number of steps |
| PendingProgress.SomeCallCanGo | ino_a9_bridge/src/wificam_bridge/session.py:117-135 | there is no deadlock: while any call is under way, some caller can take a step |
| PendingProgress.CallIsSent | ino_a9_bridge/src/wificam_bridge/camera.py:444-455 | on a connection that is up a call numbers its request next, lists it, sends it on that socket and waits |
| PendingProgress.CallEnds | ino_a9_bridge/src/wificam_bridge/camera.py:449-468 | a call past its send ends by its own steps: as a failed send, with the timeout, or with the error or the response of its record, and releases its lock |
| PendingProgress.ReplyReturns | ino_a9_bridge/src/wificam_bridge/camera.py:572-579 | a reply to a listed command wakes its caller, and the call returns this very reply unless an error came first |
| PendingProgress.StrayReply | ino_a9_bridge/src/wificam_bridge/camera.py:572-576 | a reply to no listed command changes nothing |
| PendingProgress.NotConnected | ino_a9_bridge/src/wificam_bridge/session.py:131-139 | while the session is not connected no call begins, and one that has the lock gives up unless it only sends |
| PendingTheorems.LateCommandFails | ino_a9_bridge/src/wificam_bridge/camera.py:488-492 | a command registered too late for that close can only fail in its send |
| PendingTheorems.TableHoldsAtMostOne | ino_a9_bridge/src/wificam_bridge/session.py:117-135 | with the session as the only caller the table never holds more than one command, and none while the control lock is free |
| PendingTheorems.OutcomesAreSound | ino_a9_bridge/src/wificam_bridge/camera.py:455-468 | a set event has a response or an error behind it, the "completed without a response" branch is unreachable, and a returned response carries the command and sequence of its request |
| PendingTheorems.SequencesAreDistinct | ino_a9_bridge/src/wificam_bridge/camera.py:566-570 | sequence numbers allocated on one connection are all different, handshake numbers included |
| PendingTheorems.HandshakeHasItsNumbers | ino_a9_bridge/src/wificam_bridge/camera.py:298-332 | in every reachable state the numbers 1 to 4 belong to the handshake commands 2650, 106, 2610 and 2614, in this order |
| PendingTheorems.ReaderAsks | ino_a9_bridge/src/wificam_bridge/camera.py:355-366 | the reader itself asks for nothing but the handshake and, under the next number from 5 on, the time by command 107 |
| PendingTheorems.ReplyIsOwnIff | ino_a9_bridge/src/wificam_bridge/camera.py:572-579 | given a camera that echoes the pair, a returned reply answers that very call if and only if the two requests were numbered on the same connection |
| PendingTheorems.LateReplyIsNotTaken | ino_a9_bridge/src/wificam_bridge/camera.py:455-468 | for requests allocated and sent on one connection a late reply is never taken as the answer to a later command |
| PendingLimits.LateReplyCanCrossConnections | ino_a9_bridge/src/wificam_bridge/camera.py:298 | the condition is needed: a reconnect between allocation and send lets a late reply reach a later command |
| Media.CameraState.Publish | ino_a9_bridge/src/wificam_bridge/bridge.py:110-117 | the cell holds the newest frame under its place in the log of frames |
| Media.CameraState.PublishAudio | ino_a9_bridge/src/wificam_bridge/bridge.py:119-124 | the bounded deque stays exactly the last min(audio_id, 128) chunks of the log with consecutive ids |
| Media.CameraState.WaitForFrame | ino_a9_bridge/src/wificam_bridge/bridge.py:126-134 | what is returned is the newest frame of that moment and not the one already seen; a timeout means that there was none for that long |
| Media.CameraState.WaitForAudio | ino_a9_bridge/src/wificam_bridge/bridge.py:140-156 | what is returned is the part of the log after the cursor that is still held; a timeout means that there was none for that long |
| Media.FrameAwaited | ino_a9_bridge/src/wificam_bridge/bridge.py:126-134 | over the waits of a viewer, timeouts make no difference: the wait ends at the first moment with a frame other than the last one, with everything published by then |
| Media.AudioAwaited | ino_a9_bridge/src/wificam_bridge/bridge.py:140-156 | over the waits of a listener the wait ends at the first moment with audio beyond the cursor, and never without one |
| Selections.NewFramePicks | ino_a9_bridge/src/wificam_bridge/bridge.py:110-117 | the frames of a list of publications are exactly the frames among them, in place |
| Selections.NewAudioPicks | ino_a9_bridge/src/wificam_bridge/bridge.py:119-124 | the audio of a list of publications is exactly the chunks among them, in place |
| Media.Listen | ino_a9_bridge/src/wificam_bridge/bridge.py:396-406 | what a listener writes is determined by the schedule of publications alone, whatever the clock, and is what its polls deliver from the log, up to where the last batch was cut off |
| Media.Stream | ino_a9_bridge/src/wificam_bridge/bridge.py:359-386 | the polls are those that the schedule of publications and the clock determine: the newest frame as soon as there is another one, timed by the reading taken when the wait for it is over; what is sent is exactly what the limiter makes of them, frames of the log with strictly increasing ids; under a nondecreasing clock the polls meet the premise of the limiter's laws |
| AudioLog.RingSnoc | ino_a9_bridge/src/wificam_bridge/bridge.py:97 | appending to the full ring drops exactly its oldest chunk |
| AudioLog.DeliveredInOrder | ino_a9_bridge/src/wificam_bridge/bridge.py:396-404 | every listener run outputs chunks of the log in strictly increasing id order |
| AudioLog.DeliveredCount | ino_a9_bridge/src/wificam_bridge/bridge.py:396-404 | a run skips exactly the lag beyond 128 at each poll |
| AudioLog.MissingIff | ino_a9_bridge/src/wificam_bridge/bridge.py:396-404 | a chunk is missing if and only if some poll found it after the cursor but no longer among the last 128 |
| AudioLog.ContiguousIff | ino_a9_bridge/src/wificam_bridge/bridge.py:396-404 | a run outputs the contiguous slice of the log from its starting cursor if and only if it never lags more than 128 |
| Sampling.SampledIsSpaced | ino_a9_bridge/src/wificam_bridge/bridge.py:373-377 | frames sent under an interval are at least that interval apart by the times of their polls |
| Sampling.SelectionKeepsOrder | ino_a9_bridge/src/wificam_bridge/bridge.py:368-377 | what is sent keeps strictly increasing frame ids |
| Sampling.SampledIsFresh | ino_a9_bridge/src/wificam_bridge/bridge.py:373-377 | every polled frame is sent or comes less than one interval after a sent one |
| Sampling.SampledIsLargest | ino_a9_bridge/src/wificam_bridge/bridge.py:373-377 | under a nondecreasing clock no other choice of polled frames one interval apart sends more of them |
| Sampling.PreviewRate | ino_a9_bridge/src/wificam_bridge/bridge.py:373-377 | by the readings of the clock, frames sent are at least an interval apart and any window of length W holds at most W / interval + 1 of them |
| Timing.WindowBound | ino_a9_bridge/src/wificam_bridge/bridge.py:373-377 | any window of length W holds at most W / interval + 1 of any spaced events |

## Left out

- Sockets, threads and clocks themselves: replaced as described above; a failing `sendall` and an error from
  `socket.close()` itself are not modelled in `Client`, while in `Pending` any send may fail at any moment.
- A consumer that stops iterating over `frames()` in the middle of a batch, exceptions from callbacks, and a `close()`
  from another thread during `Client`'s run; `Pending` has those endings as steps of the reader and the closer.
- The pending-command table inside `Client.CameraClient.ProcessPacket`: whether an RPC response resolves a command does
  not affect media, and the table has its own model in `Pending`.
- Handshake packets inside `Pending`: only their sequence numbers are kept, since `_wait_response` does not use the table.
- The response code that `send_control` checks last (`camera.py` lines 466-467): replies in `Pending` carry no code.
- AES rounds and MD5: parameters; nothing is claimed about secrecy or collisions.
- Argument checks of constructors and builders that raise on values of the wrong type, on empty credentials or on
  timeouts that are not positive.
- UDP beyond the fixed header, since the client uses TCP only.
- `CameraState.status` and its wall-clock activity times, and snapshot, still and control handlers of the HTTP servers.
- HTTP headers and routing, `control_api.py`, `cli.py`, `app_runtime.py` and the Home Assistant integration: plumbing and
  per-branch validation.
- The enum payload tables for LED, night vision, flip, quality and motion: finite maps.
- Reconnect liveness and thread-join timeouts: they depend on scheduling and the network. `Pending` proves safety, and
  that steps are possible and finitely many suffice; it says nothing of fair scheduling.
- Session.StartUp: models one connection; the reconnect loop around it is the reader of `Pending`.
