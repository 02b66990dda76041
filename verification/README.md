# ESPNetworkSerial: a verified model of ESPNS/1

ESPNetworkSerial carries the Arduino IDE's serial monitor to an ESP32 over TCP.  Device (C++,
non-blocking, fixed buffers) and host monitor (Go, blocking, several goroutines) speak ESPNS/1: a
line handshake with optional mutual HMAC authentication, then either raw bytes or AES-256-GCM
records.  The monitor keeps one IDE session alive over many such connections.  This project models
both implementations and the layer that survives reconnects, and proves what they promise together.

To check it, run `dafny verify dfyconfig.toml`.

## How the model is laid out

| file | models |
|---|---|
| ByteStrings, Aead, RecordLayer | bytes and big-endian integers; AES-GCM as an ideal object with a log; the record format and its two pure decoders |
| Sockets | the device's socket (short reads and sends, refusals, drops at any test) and the host's connection |
| RecordReceiver, RecordTransmitter | the device's reassembly buffers and its 1050-byte pending buffer, as classes over arrays |
| HostSecureConn, NonceUse | the host's `espnsSecureConn` and the nonces it seals under |
| SecureSession, SecureLink | both ends together: as a run of events over any channel, and as the actual objects in step |
| ControlFields, ControlLines, Hex, Hkdf | field parsers, line readers, hex, key derivation, each on both sides |
| Handshake, HandshakeExchange, HostNegotiation | what each line says and decides, the exchange line by line, and the host's blocking negotiation |
| DeviceHandshake, HandshakeAgreement | the device's handshake as a reader of streams, and both ends on each other's streams |
| Authentication | many handshakes under one key with a symbolic HMAC and an active network |
| DeviceView, DeviceTcp | what a call may do to a session, as a relation that composes; `ESPNetworkSerialTCP`: client replacement, key changes, handshake and data path under one invariant |
| DeviceRuns | every run of the endpoint, over any number of connections, with an account of each one that is over |
| EndpointAgreement, DeviceLink | the device endpoint against the host's negotiation, and against the host's connection object in an encrypted session |
| ConnectionOwnership | every interleaving of readers, the writer and closers of `reconnectingTCP` |
| ReconnectingTcp, StressRecovery | `Read` and `Write` across reconnects with interference, time bounds; the stress retry loop |
| MonitorSessions | every interleaving of the command loop and the bridges |
| MuxView, Mux | the stream mux: round-robin specification, and the class over a four-element array |
| CStringQuote | the key printer and a C string-literal lexer |

Bodies that work step by step in the source are methods with loops over the same fields, each proved
against a function of its inputs; goroutines are state machines whose steps are one critical section,
dial, handshake, I/O call or close each.

## What is assumed

- AES-256-GCM (`Aead`): opening succeeds only on what was sealed under that key, and a ciphertext is
  the plaintext length plus 16.  One object per directional session key: fresh handshake nonces are
  taken to give fresh keys.
- HMAC-SHA256 is an arbitrary 32-byte function where keys are derived and modes compared, and
  symbolic in `Authentication`.
- Device sockets: bytes arrive only between calls of the public methods.
  `RecordReceiver.Receiver.AssembleBodyOnArrival` shows what this excludes.
- What the listening socket offers is arbitrary; `Server.answers` records every `accept`, and `Board.dials` when each dial began.
- "With nothing interfering" below means that the connection was up and neither `Client.faults` nor the
  count of failed seals grew: no drop, no refused read, no short or refused send, no missing
  descriptor, no failing cipher during the call.
- Host connections report a write error only with a short count, and a read returns at least one byte
  or fails.  Dials, handshakes and sleeps keep their time limits.
- While a thread waits for `reconnectMu`, time passes only in its holder's dials, handshakes and sleeps.
- Randomness, clocks and the network are nondeterministic choices or parameters.

Where the device takes the first of duplicated fields the host takes the last; the documentation does
not say which is right.  `ControlFields.ParsersAgreeIff` gives the exact condition for agreement.

## Model

| member | source | states |
|---|---|---|
| ByteStrings.FromBEOfBE | src/ESPNetworkSerial.cpp:592-605 | Reading back a big-endian integer that was written returns it, for every width and every value that fits. |
| ByteStrings.BEOfFromBE | src/ESPNetworkSerial.cpp:592-605 | Writing back what was read reproduces the bytes. |
| ByteStrings.BEInjective | monitor/secure_conn.go:235-240 | Two integers that fit have the same big-endian bytes only if they are equal. |
| ByteStrings.ReadUint64BE | src/ESPNetworkSerial.cpp:592-598 | The shift loop reads the big-endian value of the eight bytes and never overflows 64 bits. |
| ByteStrings.WriteUint64BE | src/ESPNetworkSerial.cpp:600-605 | The right-to-left loop writes exactly the eight big-endian bytes and leaves the rest of the buffer alone. |
| Aead.OpenIn | monitor/secure_conn.go:222-225 | Opening succeeds exactly on a nonce, header and ciphertext sealed before under that key, and then returns that record's plaintext. |
| Aead.IdealAead.Seal | monitor/secure_conn.go:168 | Any ciphertext of plaintext length + 16; the sealed tuple is recorded. |
| RecordLayer.NonceInjective | monitor/secure_conn.go:235-240 | Prefix followed by the 64-bit sequence number is injective in the sequence number. |
| RecordLayer.NonceLayout | monitor/secure_conn.go:235-240 | A nonce is the prefix, then the number in eight bytes, most significant first. |
| RecordLayer.HeaderLayout | monitor/secure_conn.go:163-165 | A header is ten bytes: length and number, each most significant byte first. |
| RecordLayer.HeaderJudged | src/ESPNetworkSerial.cpp:1165-1203 | A header whose length is zero or above 1024, or whose number is not the next, ends the session with its tenth byte; any other is kept. |
| RecordLayer.NoncesDistinct | src/ESPNetworkSerial.cpp:1079-1123 | Records numbered 0, 1, 2, ... never share a nonce, and none uses sequence 2^64-1. |
| RecordLayer.HeaderFields | monitor/secure_conn.go:163-165 | Length and sequence read from an emitted header are the ones written, whatever follows. |
| RecordLayer.FeedAllConcat | src/ESPNetworkSerial.cpp:1165-1253 | Byte-at-a-time decoding of a concatenation is decoding of the parts in turn. |
| RecordLayer.FeedIsDecode | src/ESPNetworkSerial.cpp:1165-1253 | Byte-at-a-time decoding equals one-shot decoding: same plaintext, same next number, same incomplete tail, failure at the same first bad record. |
| RecordLayer.OpensOwn | monitor/secure_conn.go:221-225 | The record sealed at position k opens at position k and yields its plaintext. |
| RecordLayer.WireFrom | monitor/secure_conn.go:163-175 | The wire of a run of records is the first record followed by the wire of the others. |
| RecordLayer.OpenSynchronised | monitor/secure_conn.go:212-225 | Whatever record arrives, only the sender's record number `next` can be opened at position `next`. |
| RecordLayer.FeedAllSynchronised | src/ESPNetworkSerial.cpp:1125-1253 | For any bytes at all, a receiver in step with the sender's log stays in step: what it handed out is the plaintext of the first records. |
| NonceUse.NoncesDistinctIff | monitor/secure_conn.go:159-177 | The nonces a host connection seals under are pairwise distinct if and only if nothing is sealed after a record whose write failed. |
| NonceUse.SealNonceAt | monitor/secure_conn.go:167-177 | The k-th record is sealed under the number of earlier records whose write succeeded. |
| NonceUse.StatusAfter | monitor/secure_conn.go:170-178 | How one more write outcome changes whether the connection is clean, has failed, or has reused a nonce. |
| NonceUse.SealedOnce | monitor/secure_conn.go:167-178 | One more sealed record extends the nonce history by the nonce of the current sequence number. |
| RecordReceiver.Receiver.HandleSecureRx | src/ESPNetworkSerial.cpp:1165-1253 | For every pattern of short reads, the pass consumes a prefix of the waiting bytes and moves the decoder exactly as feeding it those bytes does, failing exactly when it fails; it takes something unless the socket refuses, and nothing while plaintext is unread. |
| RecordReceiver.Receiver.DecryptSecureRecord | src/ESPNetworkSerial.cpp:1125-1163 | Opens the assembled record in place if and only if lengths, sequence and tag are right; on failure the bounds of the plaintext and the sequence number stay where they were. |
| RecordReceiver.Receiver.ReceiveHeader | src/ESPNetworkSerial.cpp:1172-1201 | Fills the 10-byte header across calls and rejects a zero or over-long length or a wrong sequence as soon as it is complete. |
| RecordReceiver.Receiver.ReceiveCipher | src/ESPNetworkSerial.cpp:1203-1218 | Ciphertext bytes go behind those already held, never past the announced length. |
| RecordReceiver.Receiver.ReceiveTag | src/ESPNetworkSerial.cpp:1220-1237 | Tag bytes go behind those already held, never past 16. |
| RecordReceiver.Receiver.Take | src/ESPNetworkSerial.cpp:1456-1506 | A bulk read returns the first unread plaintext bytes in order and leaves the rest and the decoder state alone. |
| RecordReceiver.Receiver.TakeByte | src/ESPNetworkSerial.cpp:1427-1454 | A single read returns the next plaintext byte, or -1 exactly when none is unread. |
| RecordReceiver.Receiver.PeekByte | src/ESPNetworkSerial.cpp:1508-1530 | Peek is the next unread plaintext byte or -1. |
| RecordReceiver.Receiver.ResetState | src/ESPNetworkSerial.cpp:671-694 | After a reset the decoder is in its initial state. |
| RecordReceiver.Receiver.AssembleBodyOnArrival | src/ESPNetworkSerial.cpp:1203-1237 | When bytes arrive between the ciphertext and the tag test, they are filed as tag bytes of an unfinished ciphertext exactly when the ciphertext test had found the socket empty: the reason arrivals are placed between calls. |
| RecordTransmitter.Transmitter.StageSecureRecord | src/ESPNetworkSerial.cpp:1079-1123 | Staging seals the data as the next record, consuming one sequence number; a refusal consumes none, seals nothing, keeps what is pending, and has one of the listed reasons. |
| RecordTransmitter.Transmitter.SealRecord | src/ESPNetworkSerial.cpp:1087-1121 | The pending buffer then holds header, ciphertext and tag of that record, within 1050 bytes. |
| RecordTransmitter.Transmitter.StageRaw | src/ESPNetworkSerial.cpp:1357-1405 | An unencrypted chunk becomes the pending bytes. |
| RecordTransmitter.Transmitter.DrainTxPending | src/ESPNetworkSerial.cpp:1036-1077 | Whatever the socket takes, it is the next pending bytes; would-block keeps them and the session, an error or a send of nothing asks for the close, a missing descriptor too; a socket that takes all leaves nothing pending. |
| RecordTransmitter.Transmitter.Consume | src/ESPNetworkSerial.cpp:1057-1063 | Taking count bytes moves exactly those from pending to sent. |
| RecordTransmitter.Transmitter.RecordTxDrop | src/ESPNetworkSerial.cpp:1019-1034 | Both drop counters stay the true totals saturated at 2^64-1 and 2^32-1. |
| RecordTransmitter.Transmitter.Reset | src/ESPNetworkSerial.cpp:678-694 | A new session starts with nothing pending, nothing sent and sequence zero; the drop counters survive. |
| HostSecureConn.HostReadSynchronised | monitor/secure_conn.go:184-233 | Whatever arrives and however often Read is called again after an error, bytes handed out plus bytes buffered are the plaintext of the first records. |
| HostSecureConn.HostReadIsDecode | monitor/secure_conn.go:184-233 | A read hands out the next bytes of the one-shot decoding and keeps the rest; it fails only where decoding yields nothing more. |
| HostSecureConn.ReadsYieldDecode | monitor/secure_conn.go:184-233 | Reading with any positive buffer size until the first error yields exactly the one-shot decoding. |
| HostSecureConn.SecureConn.WriteAll | monitor/secure_conn.go:242-253 | Under short writes, what reached the wire is a prefix of the data, and success means all of it. |
| HostSecureConn.SecureConn.WriteRecord | monitor/secure_conn.go:159-178 | Seals one record under the current number; on success it is whole on the wire and counted, on failure only an incomplete copy is and the number stays. |
| HostSecureConn.SecureConn.Write | monitor/secure_conn.go:144-182 | While no write has failed, wire and accepted bytes stay the records and plaintext of the log, and `total` says exactly how much of the input was accepted; it fails only when the connection does or the numbers run out; a write that succeeds takes one record for each 1024 bytes begun. |
| HostSecureConn.SecureConn.ReadFull | monitor/secure_conn.go:198-219 | All the bytes asked for, in order, or an error once the connection has too few. |
| HostSecureConn.SecureConn.Read | monitor/secure_conn.go:184-233 | Each read, under any short reads of the connection, is the specified step of the host reader. |
| SecureSession.DecodeWireThen | monitor/secure_conn.go:144-233 | Records k to j followed by any bytes decode to their plaintext and then to whatever those bytes decode to. |
| SecureSession.RoundTrip | monitor/secure_conn.go:144-233 | Decoding the wire of a numbered log returns its whole plaintext, no tail and no failure. |
| SecureSession.CutStreamDecodes | monitor/secure_conn.go:170-175 | A stream ending inside a record yields the plaintext before it, keeps the cut bytes and is not a failure. |
| SecureSession.SegmentationIndependent | src/ESPNetworkSerial.cpp:1165-1253 | However the stream is cut over calls, the receiver ends in the state of one-shot decoding of the whole. |
| SecureSession.DeviceGetsWhatHostAccepted | src/ESPNetworkSerial.cpp:1125-1253 | Over a faithful channel cut anywhere, the device ends with exactly the bytes the host counted as accepted, even after a write failed inside a record. |
| SecureSession.HostGetsWhatDeviceSealed | monitor/secure_conn.go:184-233 | Over a faithful channel the host reads exactly what the device sealed, for every read size. |
| SecureSession.StepKeepsInvariant | monitor/secure_conn.go:144-233 | Sealing on either side, delivery of any bytes and any host read keep both directions in step. |
| SecureSession.DeliveredIsPrefix | src/ESPNetworkSerial.cpp:1079-1253 | In every run, with the channel delivering anything, each reader has been handed a prefix of what the other side sealed, and no nonce was used twice under either key. |
| SecureSession.HostRecordArrives | src/ESPNetworkSerial.cpp:1165-1253 | In any run, when the device has read everything so far, the next record the host seals and the channel delivers is the next the device reads. |
| SecureSession.DeviceRecordArrives | monitor/secure_conn.go:184-233 | The same from the device to the host. |
| SecureLink.Link | src/ESPNetworkSerial.cpp:904-925 | What the handshake leaves at the two ends, fresh objects with each other's keys, is in step. |
| SecureLink.DeviceApplicationReadsPrefix | src/ESPNetworkSerial.cpp:1427-1506 | For linked endpoint objects, what the sketch has read is a prefix of what the host accepted (or of that and the one record whose write failed). |
| SecureLink.HostApplicationReadsPrefix | monitor/secure_conn.go:184-233 | What the host has read is a prefix of what the device staged. |
| SecureLink.HostWrites | monitor/secure_conn.go:144-182 | A host write keeps the two endpoint objects in step in both directions; after a failed write, exactly when it seals nothing. |
| SecureLink.HostReads | monitor/secure_conn.go:184-233 | So does every host read, also after an error. |
| SecureLink.DeviceHandles | src/ESPNetworkSerial.cpp:1165-1253 | So does every receive pass that does not end the session; one that does leaves what was delivered a prefix. |
| SecureLink.DeviceApplicationReads | src/ESPNetworkSerial.cpp:1456-1506 | So does every read by the sketch. |
| SecureLink.DeviceStages | src/ESPNetworkSerial.cpp:1079-1123 | So does staging a record on the device. |
| ControlFields.GetControlField | src/ESPNetworkSerial.cpp:518-553 | The in-place scan returns the first non-empty value of the field that fits the output, or none. |
| ControlFields.ParseEspnsFields | monitor/protocol.go:209-217 | The map holds, for each name before the first `=` of a token, the value of its last token. |
| ControlFields.HostTakesLast | monitor/protocol.go:209-217 | Looking a name up in that map yields the last value given for it, or the empty string. |
| ControlFields.TokenisersAgree | src/ESPNetworkSerial.cpp:518-553 | On lines whose only white space is spaces both tokenisers give the same tokens. |
| ControlFields.FieldParsersAgree | src/ESPNetworkSerial.cpp:518-553 | On such lines, with the name given at most once, the device returns v exactly when the host map has v, v is not empty and v fits. |
| ControlFields.ParsersAgreeIff | monitor/protocol.go:209-217 | For every list of tokens and every buffer size the device answers with the host's value, where there is room for it, if and only if all values are empty, the first non-empty value is the last value, or the first one does not fit and the last is empty or does not fit either. |
| ControlFields.DuplicateFieldWitness | monitor/protocol.go:209-217 | A line with a duplicated field on which the device takes the first value and the host the last. |
| ControlFields.OrderIgnored | monitor/protocol.go:209-217 | With distinct names, permuting the fields changes neither parser's answer. |
| ControlFields.UnknownFieldIgnored | docs/protocol.md:137-138 | Adding a field of another name changes neither parser's answer. |
| ControlLines.ScanIsLfSplit | monitor/protocol.go:186-207 | A line that ends within the limit is the text up to the first LF with every CR removed, and the byte after that LF is the next unread one. |
| ControlLines.ScanWithoutLf | monitor/protocol.go:186-207 | Without an LF the scan holds the text so far, or reports the overrun. |
| ControlLines.ScanSegments | src/ESPNetworkSerial.cpp:929-971 | Scanning two pieces in turn is scanning their concatenation. |
| ControlLines.LinesAreScans | src/ESPNetworkSerial.cpp:929-971 | The device's byte-by-byte line account and the scan finish the same line at the same byte and reject the same over-long one. |
| ControlLines.ReadControlLine | monitor/protocol.go:186-207 | The host's reader returns the trimmed line and stops right after its LF, or fails on an early end or an over-long line. |
| Hkdf.HkdfExpand | monitor/secure_conn.go:63-85 | For every length up to 255*32 the loop computes T(1), T(2), ... truncated, as in section 2.3 of RFC 5869, and the byte counter does not wrap. |
| Hkdf.ExpandPrefix | monitor/secure_conn.go:63-85 | A shorter output is a prefix of a longer one. |
| Hkdf.SecondBlock | monitor/secure_conn.go:63-85 | The second block is one HMAC over the first, the label and the byte 2. |
| Hkdf.HkdfExpandSingleBlock | src/ESPNetworkSerial.cpp:566-590 | For lengths 1 to 32 with info that fits its buffer the device's one-block version equals the host's expansion; otherwise it refuses. |
| Hkdf.DeriveOnHost | monitor/secure_conn.go:31-55 | The host's four outputs are the specified session keys and prefixes, each written out as one HMAC over its own label. |
| Hkdf.DeriveOnDevice | src/ESPNetworkSerial.cpp:736-782 | The device's four outputs are the same keys and prefixes, and it never fails to derive them. |
| Hkdf.KeysWrittenOut | monitor/secure_conn.go:47-52 | Each key is the first block for its own literal label, under the key extracted from both nonces; each prefix is the first four bytes of one. |
| Hkdf.LabelsDiffer | monitor/secure_conn.go:49-52 | The four labels give pairwise different HMAC inputs. |
| Hkdf.DirectionsDiffer | monitor/secure_conn.go:49-50 | Unless HMAC collides on the two labels, the two directions have different keys. |
| Hex.HexRoundTrip | src/ESPNetworkSerial.cpp:485-508 | Decoding an encoded byte string returns it. |
| Hex.HexDigits | src/ESPNetworkSerial.cpp:485-508 | A byte is written as two lower-case digits, the high one first. |
| Handshake.MacTextInjective | monitor/protocol.go:173-184 | With nonces free of spaces, equal authenticated texts have equal role, client nonce, server nonce and mode. |
| Handshake.HelloParses | monitor/protocol.go:78 | The emitted HELLO line parses back to its nonce. |
| Handshake.ChallengeParses | src/ESPNetworkSerial.cpp:817-822 | The emitted CHALLENGE line splits into its command words and fields. |
| Handshake.ChallengeFields | src/ESPNetworkSerial.cpp:817-822 | The host reads from it the auth method, mode, nonce and proof that were put in. |
| Handshake.AuthParses | monitor/protocol.go:136 | The emitted AUTH line parses back to its proof. |
| Handshake.OkParses | src/ESPNetworkSerial.cpp:910-917 | The emitted OK line parses back to its auth method and mode. |
| HandshakeExchange.Carried | src/ESPNetworkSerial.cpp:929-971 | A clean line sent with its LF arrives unchanged at either end. |
| HandshakeExchange.RawExchange | monitor/protocol.go:87-96 | Line by line, a keyless device ends raw; the host ends raw exactly when it has no key or allows that, and fails otherwise. |
| HandshakeExchange.DeviceChallenges | src/ESPNetworkSerial.cpp:784-832 | A device with a key answers HELLO with a challenge carrying its SERVER proof. |
| HandshakeExchange.HostAnswers | monitor/protocol.go:102-138 | The host answers a challenge exactly when it has a key and the SERVER proof is the one its key gives. |
| HandshakeExchange.DeviceVerifies | src/ESPNetworkSerial.cpp:884-926 | The device becomes ready and secure exactly when the CLIENT proof is the one its key gives. |
| HandshakeExchange.SecureExchange | monitor/protocol.go:65-171 | Line by line, with a key on the device, both ends become secure exactly when the host has a key giving the same proofs, each then holding the keys its key derives; otherwise neither gets a mode. |
| HandshakeExchange.SecureTranscript | monitor/protocol.go:65-184 | The four lines of an authenticated handshake and the texts under both proofs, letter by letter, as each end produces them from what it receives. |
| HandshakeExchange.ModesAgree | monitor/protocol.go:65-171 | The same as one statement about the keys: when different keys give different proofs, host and device end secure together, exactly when both hold the same key, with the same session keys; raw only with a keyless device and a host that permits it. |
| HostNegotiation.DecideFirst | monitor/protocol.go:87-138 | The branches on the first response compute the specified host step. |
| HostNegotiation.DecideFinal | monitor/protocol.go:144-157 | The branches on the final response accept exactly the secure OK line. |
| HostNegotiation.AnswerChallenge | monitor/protocol.go:135-170 | Sends exactly the AUTH line and ends as the final response requires, with the derived keys. |
| HostNegotiation.NegotiateHandshake | monitor/protocol.go:65-171 | Over any short reads the negotiation sends exactly its HELLO and, when called for, its AUTH, and ends as specified for the bytes received, with the first data byte still unread. |
| DeviceHandshake.RunMeans | src/ESPNetworkSerial.cpp:784-927 | After any handshake bytes, the session is what their finished lines make it: raw only after a HELLO to a keyless device, secure only after a HELLO, the challenge and an AUTH line whose proof the key gives, with that key's session keys; and the lines sent are exactly the replies to those. |
| DeviceHandshake.ReadyModes | src/ESPNetworkSerial.cpp:851-926 | A ready session is encrypted exactly when the device has a key. |
| DeviceHandshake.ReadIsScan | src/ESPNetworkSerial.cpp:929-971 | Reading a stream byte by byte until a line decides is: scan one line, decide it, go on behind it. |
| DeviceHandshake.ReadConcat | src/ESPNetworkSerial.cpp:929-971 | Reading two pieces in turn is reading their concatenation; a decided session leaves all the rest. |
| DeviceHandshake.RandomUnused | src/ESPNetworkSerial.cpp:784-832 | The server nonce has no influence before the challenge is sent. |
| DeviceHandshake.RandomUnusedLater | src/ESPNetworkSerial.cpp:884-927 | Nor has it any once the challenge has been sent. |
| HandshakeAgreement.JoinedEndsAgree | monitor/protocol.go:65-171 | When each end has read all that the other sent, with any data behind the handshake, the host's negotiation and the device's reader end as the line-by-line exchange says, and each leaves exactly the other's data unread. |
| HandshakeAgreement.JoinedExists | monitor/protocol.go:65-171 | There is such a joint run for all data that ends in a mode may send. |
| HandshakeAgreement.ImplementationsAgree | monitor/protocol.go:65-171 | In every joint run both end secure or neither does, exactly when both hold the same key, with the same session keys; the device is raw exactly when keyless, the host then only if it permits it. |
| HandshakeAgreement.HostOnPart | monitor/protocol.go:65-171 | A host that has seen only part of the device's bytes fails or ends as it would on all of them. |
| HandshakeAgreement.NeverInDifferentModes | monitor/protocol.go:65-171 | At every moment of a joint run, with each end having read any part of what was sent, a host or device that has a mode has that of the finished exchange. |
| HandshakeAgreement.PiecesMakeNoDifference | src/ESPNetworkSerial.cpp:929-971 | However the stream to the device is cut over its calls, session and unread rest are those of one reading. |
| Authentication.TermsFaithful | monitor/protocol.go:173-184 | With valid nonces, equal authenticated bytes mean equal role and nonces. |
| Authentication.StepProofs | src/ESPNetworkSerial.cpp:784-846 | Every authenticated text belongs to a challenge some device issued or an answer some host gave. |
| Authentication.SecureDeviceHasOneHost | src/ESPNetworkSerial.cpp:834-846 | With any number of sessions and any relayed, altered or replayed lines, a secure device session has exactly one host session with its two nonces, and no other device session has its server nonce. |
| Authentication.SecureHostHasOneDevice | monitor/protocol.go:117-138 | A host that ends secure has exactly one device session with its two nonces, and derives that session's keys. |
| Authentication.HonestHandshake | src/ESPNetworkSerial.cpp:784-846 | After any run, a new host and a new device whose lines are carried unchanged both end secure. |
| DeviceView.DataThen | src/ESPNetworkSerial.cpp:1255-1296 | Data steps compose: what was taken in both is decoded as one piece, and a session with nothing interfering ends only if what waited at the start does not decode. |
| DeviceView.OnWireThen | src/ESPNetworkSerial.cpp:1036-1077 | What a step leaves on the wire and in the record log, whether or not the session survives it, composes: behind the handshake only what is owed, each record under its own number, over both steps. |
| DeviceView.LastThenData | src/ESPNetworkSerial.cpp:1255-1296 | So does what a whole call leaves on the connection it found, through the end of a handshake or of a session. |
| DeviceView.FateThenData | src/ESPNetworkSerial.cpp:929-971 | The outcome of a handshake stands whatever data steps follow in the same call. |
| DeviceView.TidyServeData | src/ESPNetworkSerial.cpp:1255-1275 | Letting a dead client go, serving the handshake, then the data, is one step of `handle`. |
| DeviceTcp.ESPNetworkSerialTCP.constructor | src/ESPNetworkSerial.cpp:425-464 | A new endpoint satisfies the invariant, with no client and no key. |
| DeviceTcp.ESPNetworkSerialTCP.SetAuthKey | src/ESPNetworkSerial.cpp:627-647 | Accepts exactly the C strings of 16 to 128 bytes, and then has dropped the client with nothing more put on its wire, no record sealed and the drop totals as they were; a refusal leaves endpoint, receiver, transmitter and socket unchanged. |
| DeviceTcp.ESPNetworkSerialTCP.ClearAuthKey | src/ESPNetworkSerial.cpp:649-656 | Clears the key and drops the client, with nothing more put on its wire, no record sealed and the drop totals as they were. |
| DeviceTcp.ESPNetworkSerialTCP.SendControlLine | src/ESPNetworkSerial.cpp:980-997 | Reports success only when the whole line is on the wire. |
| DeviceTcp.ESPNetworkSerialTCP.ProcessHello | src/ESPNetworkSerial.cpp:851-882 | On a session left open the HELLO line had exactly the specified effect, with a server nonce made from 16 random bytes; with nothing interfering it got exactly the specified reply and the session the specified fate. |
| DeviceTcp.ESPNetworkSerialTCP.ProcessAuth | src/ESPNetworkSerial.cpp:884-926 | The same for the AUTH line, including each refusal and its error line. |
| DeviceTcp.ESPNetworkSerialTCP.EnterSecureMode | src/ESPNetworkSerial.cpp:904-925 | Secure mode starts with the keys of the configured key, both sequence numbers at zero, nothing pending, nothing received, and two unused key objects. |
| DeviceTcp.ESPNetworkSerialTCP.ProcessHandshakeLine | src/ESPNetworkSerial.cpp:848-927 | Each finished line is decided by the state it was finished in: an open session is what the line makes of it, and with nothing interfering the reply and the end of the session are too. |
| DeviceTcp.ESPNetworkSerialTCP.HandleHandshake | src/ESPNetworkSerial.cpp:929-971 | For every cut of the stream over calls, an open session is what the handshake bytes taken from the socket make of it; a session that becomes ready leaves exactly the bytes behind the deciding LF to the data path.  With nothing interfering the waiting bytes decide the outcome: the first line that decides, a line too long, the time limit, or everything read and the handshake still open.  However it ends, the wire holds no more than the replies to some of the bytes that waited, and at most the timeout line. |
| DeviceTcp.ESPNetworkSerialTCP.CheckTimeout | src/ESPNetworkSerial.cpp:965-970 | With nothing interfering, the session is closed exactly when its recorded start is older than the limit, with the timeout line, and otherwise left as it was. |
| DeviceTcp.ESPNetworkSerialTCP.HandleSecureRx | src/ESPNetworkSerial.cpp:1165-1253 | A ready secure session decodes exactly the bytes it takes, takes some when it can and none while plaintext is unread, and ends exactly at the first bad record, having taken it; nothing is put on the wire, whether it goes on or ends. |
| DeviceTcp.ESPNetworkSerialTCP.DrainTxPending | src/ESPNetworkSerial.cpp:1036-1077 | Moves pending bytes to the wire behind what was sent before, also when it ends the session; leaves the handshake part of the wire, receiver, keys and account alone, seals nothing, and with nothing interfering sends all of them and keeps the session. |
| DeviceTcp.ESPNetworkSerialTCP.Handle | src/ESPNetworkSerial.cpp:1255-1296 | Keeps, for every run, the invariant that a connected client's wire is the handshake lines that the finished lines received call for, followed by the data sent, and that every byte that arrived was a handshake byte, was taken as data or still waits.  A ready session keeps mode, keys and handshake part, decodes exactly what it takes, and with nothing interfering has sent all that was pending and survives unless what waits does not decode.  A handshake with nothing interfering comes to the outcome of the bytes waiting, on a new connection too; only a client that is gone is replaced.  Of the connection found, also when its session ends in the call, the wire then holds no more than replies to handshake bytes that waited or, once ready, what it held and a part of what was pending, with the record log unchanged; a connection turned away gets nothing  A started device asks for a waiting connection once in every call, and takes it exactly when the old one is gone. |
| DeviceTcp.ESPNetworkSerialTCP.WriteChunk | src/ESPNetworkSerial.cpp:1365-1402 | One chunk of a write: what it adds to accepted bytes and drops, for each outcome, in a session otherwise unchanged; with nothing interfering it is sent.  When the session ends in it, the wire still holds only a part of what was owed and the record log is the old one, extended by at most the chunk, well numbered. |
| DeviceTcp.ESPNetworkSerialTCP.Write | src/ESPNetworkSerial.cpp:1357-1405 | Into a session found ready, accepted bytes grow by the first `total` bytes offered and nothing else changes but bytes sent; whether or not the session survives, the wire is what it was and then a part of what is owed, and the record log extends the old one, well numbered, with exactly the accepted plaintext; when the session is left open, bytes returned plus bytes added to the drop counter are the bytes offered and the count of dropped writes grows by one exactly when some were dropped; with nothing interfering all are sent; in a secure session the log grows by one record for each 1024 bytes begun. |
| DeviceTcp.ESPNetworkSerialTCP.ReadBulk | src/ESPNetworkSerial.cpp:1456-1506 | In a secure session returns exactly the next unread plaintext, as much as fits; unencrypted, exactly the first bytes waiting, which are then taken; with nothing interfering, something whenever there is something. |
| DeviceTcp.ESPNetworkSerialTCP.Read | src/ESPNetworkSerial.cpp:1427-1454 | The same for one byte. |
| DeviceTcp.ESPNetworkSerialTCP.Available | src/ESPNetworkSerial.cpp:1407-1425 | The number of unread plaintext bytes or, unencrypted, of waiting bytes; with nothing interfering, plaintext that was already there is neither added to nor lost. |
| DeviceTcp.ESPNetworkSerialTCP.Peek | src/ESPNetworkSerial.cpp:1508-1530 | Peek is the byte the next read returns: the next unread plaintext byte or, unencrypted, the first byte waiting. |
| DeviceTcp.ESPNetworkSerialTCP.ReadyByReading | src/ESPNetworkSerial.cpp:929-971 | A ready session is what one reading of everything that has arrived makes of it, and the unread rest of that reading is the data taken and what still waits. |
| DeviceTcp.ESPNetworkSerialTCP.End | src/ESPNetworkSerial.cpp:618-625 | Ends any session and stops the endpoint; wire, record log, key and drop totals stay as they were. |
| DeviceTcp.ESPNetworkSerialTCP.DisconnectClient | src/ESPNetworkSerial.cpp:662-664 | Ends the session and leaves wire, record log, key and drop totals as they were. |
| DeviceTcp.ESPNetworkSerialTCP.Connected | src/ESPNetworkSerial.cpp:1336-1339 | Serves the connection like `handle` and reports exactly whether it is up and ready. |
| DeviceTcp.ESPNetworkSerialTCP.Meet | src/ESPNetworkSerial.cpp:1277-1295 | A new connection takes the place of the old one exactly when the old one is no longer up; otherwise it is stopped, with nothing sent. |
| DeviceRuns.History.Settle | src/ESPNetworkSerial.cpp:1255-1405 | After any call, a connection that is over is listed with what became of it, and the wire and record log it was left with are explained by that. |
| DeviceRuns.History.Step | src/ESPNetworkSerial.cpp:425-1536 | Every public call with any arguments, and any arrival, keeps the account of all connections ever taken. |
| DeviceRuns.History.AnyRun | src/ESPNetworkSerial.cpp:425-1536 | In every run of the device every connection that is over has on its wire a prefix of the handshake's replies to the bytes read from it, and behind a finished handshake a part of what was accepted, raw or in records sealed each under its own number, whichever way it ended; nothing is forgotten. |
| DeviceRuns.History.EveryConnectionExplained | src/ESPNetworkSerial.cpp:425-1536 | So each connection the device ever took, up or over, carries exactly what its own handshake and session account for. |
| DeviceRuns.History.NoNonceTwice | src/ESPNetworkSerial.cpp:1079-1129 | In every run, no session, over or not, has sealed two records under one nonce, and no two have shared a key object. |
| DeviceRuns.History.NowExplained | src/ESPNetworkSerial.cpp:425-1536 | The connection that is up is explained by what it has carried so far. |
| EndpointAgreement.ReadyEndpointAgrees | monitor/protocol.go:65-171 | A ready endpoint whose wire reached the host and which got what the host sent is in the mode of the host's negotiation, with the host's keys; the host has exactly the device's data before it, and the device has taken or has waiting exactly the host's. |
| DeviceLink.DataKeepsStep | src/ESPNetworkSerial.cpp:1165-1253 | A data step of the endpoint keeps it in step with the host's connection object; a step that ends the session leaves a log whose plaintext is what was accepted from the sketch. |
| DeviceLink.Session.HostWritesStep | monitor/secure_conn.go:144-182 | A host write keeps the two ends in step, and no further one follows one that failed. |
| DeviceLink.Session.ServingMove | src/ESPNetworkSerial.cpp:1255-1530 | So does every call of the sketch that reads or serves, also one in which the session ends or another takes its place. |
| DeviceLink.Session.WritingMove | src/ESPNetworkSerial.cpp:1357-1405 | So does every write of the sketch; what it wrote into this session grows by exactly what was accepted. |
| DeviceLink.Session.AnyRun | monitor/secure_conn.go:144-233 | For every run of both applications over a channel that delivers anything to either end: what the sketch has read in the session is a prefix of what the host's writes accepted, and what the host has read is a prefix of what the sketch's writes accepted. |
| DeviceLink.Session.ReadsArePrefixes | monitor/secure_conn.go:144-233 | The same at any moment, after a failed host write too, when the record that was cut short may have been read. |
| ConnectionOwnership.MoveKeepsOther | monitor/main.go:94-261 | A step of one thread keeps what every other thread relies on. |
| ConnectionOwnership.Reachable | monitor/main.go:94-261 | The ownership invariant holds after every interleaving of any number of readers, a writer and closers. |
| ConnectionOwnership.ClosedForGood | monitor/main.go:245-261 | Once closed, always closed, with no current connection. |
| ConnectionOwnership.NeverAgain | monitor/main.go:110-122 | A connection that has stopped being current never becomes current again. |
| ConnectionOwnership.RemovalJustified | monitor/main.go:110-122 | The current connection is removed only after an I/O call on that same connection has failed, or by Close: a stale invalidation never removes a newer one. |
| ConnectionOwnership.NoRival | monitor/main.go:154-172 | The branch for a connection that appeared during the dial is never reached. |
| ConnectionOwnership.OneRedials | monitor/main.go:124-183 | Two threads never redial at once. |
| ConnectionOwnership.CurrentIsOpen | monitor/main.go:94-122 | The current connection is never one already closed. |
| ConnectionOwnership.NoLeak | monitor/main.go:124-261 | When every call has returned, each connection ever dialled is the current one or was closed; after Close all were closed. |
| ConnectionOwnership.NoWriteAfterFailedWrite | monitor/main.go:219-243 | With one writer, the writer never stands at a connection on which one of its writes, as told by the choices made, has failed. |
| ConnectionOwnership.SpoiledIff | monitor/main.go:197-243 | The connections marked as failed are exactly those on which some step chosen to fail was an I/O call. |
| ConnectionOwnership.FailedIsLetGo | monitor/main.go:110-122 | From a failed I/O call on, the thread is forgetting or closing that connection, or it is forgotten and closed and the thread never uses it again. |
| ConnectionOwnership.FailedIsClosed | monitor/main.go:110-122 | A thread back from a failed call has had the connection forgotten and closed. |
| ConnectionOwnership.FailedWriteIsTheLast | monitor/main.go:219-243 | The writer never again stands at a connection on which its write failed. |
| ConnectionOwnership.UsedIsCurrent | monitor/main.go:94-195 | A thread takes up no connection but the current one. |
| ConnectionOwnership.GivesUpOnlyWhen | monitor/main.go:124-183 | A call gives up looking for a connection only when closed or past its deadline. |
| ConnectionOwnership.CallGetsConnection | monitor/main.go:124-195 | A call left alone, with nothing failing, gets the current connection, or dials one that becomes current. |
| ConnectionOwnership.NeverStuck | monitor/main.go:94-261 | Every thread can take a step, unless it waits for the lock of a thread that is redialling. |
| ConnectionOwnership.CloseCloses | monitor/main.go:245-261 | From Close on the object is closed for good, and the connection it found is closed when it returns. |
| ReconnectingTcp.BoardConn.Write | monitor/secure_conn.go:144-182 | Encrypted or plain, the accepted bytes grow by the reported count and stay what the wire carries, and no nonce is reused; a short count only when the socket failed or the numbers ran out, and without an error only on a plain connection. |
| ReconnectingTcp.BoardConn.Read | monitor/secure_conn.go:184-233 | A read hands out the next bytes of what the device sent on this connection and is still to come, by the specified step of the host reader, and fails only when nothing is; a read that succeeds into a buffer that is not empty hands out something. |
| ReconnectingTcp.BoardConn.Close | monitor/main.go:110-122 | Closing takes nothing back: what was accepted stays on the wire, and what was handed out stays a prefix of what was sent. |
| ReconnectingTcp.ReconnectingTCP.Reconnect | monitor/main.go:124-183 | Dials at once and again with no more than 6.75 s from one dial to the next, at most ceil(remaining / interval) times, until a connection is granted, Close or the deadline; a connection granted becomes the current one unless closed; returns no later than deadline + 2.5 s + one interval. |
| ReconnectingTcp.ReconnectingTCP.Connection | monitor/main.go:185-195 | The deadline is fixed once, on first finding no connection, and the failed dials of all reconnects stay within its budget; counting the wait for the lock too, it gives up with no pause longer than 6.75 s without a dial, and every connection granted was installed unless closed. |
| ReconnectingTcp.ReconnectingTCP.Invalidate | monitor/main.go:110-122 | Forgets the connection only if it is still the current one, and closes it in any case. |
| ReconnectingTcp.ReconnectingTCP.Write | monitor/main.go:219-243 | Across any number of reconnects, the bytes accepted by the successive sessions, in session order, grow by exactly the reported prefix of the input; every session stays valid, superseded ones closed; at most ceil(grace / interval) dials fail; it gives up only when closed, after a full grace period, or when a plain connection took nothing in this call without failing; a call that found no connection and got none was dialling, itself or through the thread it waited for, without a pause throughout. |
| ReconnectingTcp.ReconnectingTCP.Read | monitor/main.go:197-217 | Across reconnects, what is returned is what the sessions handed out next, in session order, each from the bytes that arrived on it; at least one byte unless the buffer is empty or it fails, and it fails only when closed or after a full grace period; the same dial budget; likewise a read that found no connection and got none. |
| ReconnectingTcp.ReconnectingTCP.Close | monitor/main.go:245-261 | Marks the object closed, takes its connection and closes it; a second call changes nothing. |
| ReconnectingTcp.ReconnectingTCP.NoncesNeverReused | monitor/main.go:219-243 | In no session, current or superseded, were two records sealed under one nonce. |
| ReconnectingTcp.ReconnectingTCP.AcceptedIsOnTheWire | monitor/main.go:219-243 | What each session accepted is what its wire carries, as it is or as the plaintext of the complete records there, followed by at most one incomplete record. |
| ReconnectingTcp.ReconnectingTCP.ReceivedArrived | monitor/main.go:197-217 | What each session handed out is a prefix of what the device sent on it, and all of it once a read has failed on a connection not closed before. |
| StressRecovery.StressRun.WaitForStressRecovery | monitor/stress.go:122-140 | Dials at once and then at the pace of the monitor's reconnect loop, neither too fast nor with a pause, until a connection is granted or the time is over; every dial is recorded. |
| StressRecovery.StressRun.Cycle | monitor/stress.go:44-115 | On every way out of a cycle each connection it opened has been closed, at most one is open at a time, and a recovered one serves the next attempt; success means that one connection of this cycle has echoed the whole payload, a failed transfer that a read or write on it failed, a failed recovery that its time has passed, all of it spent dialling without a pause. |
| StressRecovery.StressRun.Run | monitor/stress.go:29-120 | On every return no connection is left open; each completed cycle had its whole payload echoed on a connection of its own; with recovery on it never fails for a connect or transfer error, and for a failed recovery only after the recovery time. |
| MonitorSessions.Reachable | monitor/main.go:397-513 | The session invariant holds after every interleaving of commands and bridges. |
| MonitorSessions.EventsInOrder | monitor/main.go:452-513 | Each session is announced once and has at most one terminal event, after its own `open` event. |
| MonitorSessions.EndedOnce | monitor/main.go:495-513 | At most one caller of endSession wins, and one has as soon as any bridge has returned. |
| MonitorSessions.EndedExactlyOnce | monitor/main.go:458-513 | When loop and bridges are done, every opened session was ended by exactly one caller, with that caller's terminal event and no other, and none is active. |
| MonitorSessions.TerminalEvent | monitor/main.go:495-513 | A session that was ended has exactly one terminal event, `port_closed` if a bridge ended it and the answer to the close command if that did, and none if it was ended silently. |
| MonitorSessions.EveryCommandAnswered | monitor/main.go:397-493 | Every OPEN, CLOSE and QUIT is answered, once, in order, and by an event that suits it. |
| MonitorSessions.OpenSucceeds | monitor/main.go:397-456 | With no session active, an OPEN whose dials succeed announces a new session, makes it active and starts its two bridges. |
| MonitorSessions.NeverStuck | monitor/main.go:397-513 | A thread in the middle of something can take a step, unless it waits for another one that is running the end of the same session. |
| MonitorSessions.ActiveUntilClosed | monitor/main.go:495-506 | A session stops being active only during its own end, with both its connections already closed. |
| MonitorSessions.OthersClosed | monitor/main.go:397-506 | Of all sessions opened, only the active one has a connection open. |
| MonitorSessions.SecondTestNeverRefuses | monitor/main.go:440-449 | The second "port already opened" test never succeeds. |
| MonitorSessions.AllClosedOnExit | monitor/main.go:486-493 | When the command loop has exited, every connection of every open attempt is closed. |
| MuxView.ReadComesNearer | src/ESPNetworkSerial.cpp:173-192 | A read that serves another stream strictly shortens the cyclic distance from the cursor to one that waits. |
| MuxView.ServedWithinCount | src/ESPNetworkSerial.cpp:173-192 | With any arrivals in between, a stream with data ready is served within as many reads as there are streams. |
| MuxView.MergeKeepsOrder | src/ESPNetworkSerial.cpp:173-243 | For every run of reads of any size and arrivals, each stream's bytes come out in order, none lost, none twice. |
| MuxView.PeekPredictsRead | src/ESPNetworkSerial.cpp:245-260 | Peek announces the next byte read, and -1 exactly when no stream has data. |
| Mux.ESPNetworkSerialMux.AddStream | src/ESPNetworkSerial.cpp:79-92 | Adds a new stream if there is room, keeps streams distinct, and reports success for one already there. |
| Mux.ESPNetworkSerialMux.RemoveStream | src/ESPNetworkSerial.cpp:94-115 | Removes exactly that stream, keeps the order of the others and the cursor in range. |
| Mux.ESPNetworkSerialMux.ClearStreams | src/ESPNetworkSerial.cpp:117-124 | Leaves no stream and the cursor at zero. |
| Mux.ESPNetworkSerialMux.Write | src/ESPNetworkSerial.cpp:143-158 | Unless the data is empty every stream is offered it, once; each accepts a prefix, and the result is the largest count accepted. |
| Mux.ESPNetworkSerialMux.Available | src/ESPNetworkSerial.cpp:160-171 | The total of what the streams have. |
| Mux.ESPNetworkSerialMux.FirstReady | src/ESPNetworkSerial.cpp:178-184 | The loop finds the first stream with data from the cursor round. |
| Mux.ESPNetworkSerialMux.Read | src/ESPNetworkSerial.cpp:173-192 | A single read is the specified round-robin step. |
| Mux.ESPNetworkSerialMux.Peek | src/ESPNetworkSerial.cpp:245-260 | Peek is the specified next byte and changes nothing. |
| Mux.ESPNetworkSerialMux.ReadBulk | src/ESPNetworkSerial.cpp:198-243 | A bulk read takes from the picked stream as many bytes as fit and moves the cursor past it. |
| Mux.ESPNetworkSerialMux.FromStream | src/ESPNetworkSerial.cpp:221-234 | Fast path and byte loop hand over the same bytes, in order. |
| CStringQuote.QuoteCStringBytes | monitor/auth.go:241-266 | The printer writes the specified literal, printable ASCII only. |
| CStringQuote.ElementOfEscape | monitor/auth.go:241-266 | Each escape is read back as its byte and takes nothing of what follows: octal escapes end after three digits. |
| CStringQuote.QuoteRoundTrip | monitor/auth.go:241-266 | Lexing the literal by sections 6.4.4.4 and 6.4.5 of C11 returns exactly the input bytes, whatever follows it. |
| CStringQuote.QuoteInjective | monitor/auth.go:241-266 | Different keys have different literals. |
| CStringQuote.ProvisionedKeyArrives | monitor/auth.go:75-94 | A key the host accepts becomes the device's key if and only if it contains no zero byte. |

## Left out

- HandshakeExchange.ModesAgree: takes as a hypothesis that two different keys do not give the same SERVER proof for these nonces, because HMAC is an arbitrary function there; `SecureExchange` is the exact statement without it.
- HandshakeAgreement.ImplementationsAgree: the same hypothesis; `JoinedEndsAgree` is the exact statement without it.
- DeviceTcp.ESPNetworkSerialTCP.Write: says nothing about the drop counter when the session closes inside the call, because the code then records no drop for the remainder.
- DeviceTcp.ESPNetworkSerialTCP.CheckTimeout: a handshake whose start was recorded as `millis() == 0` has no time limit, as in the code.
- DeviceTcp.ESPNetworkSerialTCP.Handle: `WiFiClient`'s boolean test is true for a connected client and arbitrary otherwise; `millis()` is a parameter.
- DeviceTcp.ESPNetworkSerialTCP.EnterSecureMode: the source derives the keys before it sends the OK line and starts the session after it; the model installs them in one step after the line, and a failing crypto library call is modelled only where records are sealed.
- RecordReceiver.Receiver.HandleSecureRx: bytes that arrive between two tests inside one pass are excluded, see above.
- MonitorSessions.EventsInOrder: does not order an old session's terminal event against a later session's `open`, because the code clears `active` first and the later event may come first.
- ReconnectingTcp.ReconnectingTCP.Reconnect: the upper time bound counts from taking `reconnectMu`; how often other threads take that lock first is not bounded.
- ReconnectingTcp.ReconnectingTCP.Write: terminates in the model because the board grants some finite number of connections; the number is arbitrary.  Data moved by other threads in the other direction is not interleaved with this thread's own I/O.
- ReconnectingTcp.ReconnectingTCP.ReceivedArrived: what the device seals on a connection and what arrives on it is arbitrary but fixed when it is dialled, and bytes still on their way when it is closed are not handed out.
- ConnectionOwnership.Reachable: a goroutine's I/O call is one step, so a call that is blocked while another thread closes the connection is seen as ending before or after that close.
- Mux.ESPNetworkSerialMux.Read: streams are well behaved queues: `available` is exact and a stream with data yields a byte.
- CStringQuote.QuoteRoundTrip: starts after translation phase 1 of C11, so trigraphs (removed in C++17) are not replaced.
- ControlLines.ReadControlLine: white space is ASCII, and bytes are characters; UTF-8 decoding is not modelled.
- StressRecovery.StressRun.Run: the payloads are parameters; progress output and the transfer deadline are not modelled.
- AES-GCM, SHA-256, HMAC and random-generator internals: library code.
- Liveness under real schedulers beyond the stated bounds.
- Command parsing, JSON output, flags, address normalisation, configuration files and environment: thin wrappers that would only add easy members.
- `waitForConnection`, remote address and port accessors, the byte-sized `write` overload, the `Serial` mirror and the compile-time key registrars: one-branch forwarding.
- Installers, release scripts, OTA, mDNS, buttons, throughput figures: not part of this model.
