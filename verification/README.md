# Verification of the sartoriuslib kernel

A Dafny model of the driver between the serial byte stream and the sinks, with proofs of what each
layer promises over arbitrary chunkings, failures, interleavings and runs. `dafny verify
dfyconfig.toml` checks the whole project.

## What is modelled

- **Byte stream and xBPI** (`Line`, `SerialTransport`, `FakeTransport`, `XbpiFraming`, `XbpiTlv`,
  `XbpiClient`). The operating system is an adversarial list of chunks, silences and faults. `Line`
  forgets the chunk boundaries; the transport class is proved to behave like it, and it in turn
  like the flat buffer of the fake. On top: the frame codec, the record codec and the write, read
  1, read N exchange.
- **SBI** (`SbiText`, `Regex`, `SbiClassifier`, `SbiGrammar`, `SbiClient`). The line layer with its
  pending queue, and the two line classifiers over a backtracking matcher with Python's priorities;
  `SbiGrammar` says in characters and literal markers what they accept.
- **Session** (`Settings`, `Session`, `ConfigCache`, `Probes`, `Balance`, `Interleaving`,
  `Overlap`). The gates, the
  availability map and the result cache; `configure_protocol` once as a sequential transaction over
  real client and transport objects, and once as one of N tasks in a step system with locks.
- **Recorder, pipe and schema** (`Recorder`, `Pipe`, `SchemaLock`). Time is a monotone clock over
  `real`; the sink can fail at any write.
- **Manager and diagnostics** (`Manager`, `Dispatch`, `Jitter`).

Outcomes of I/O, clocks, `realpath` and the order in which tasks run are parameters or adversarial
choices. The recorded exceptions are constructors of result datatypes.

## Where the code is weaker than its prose

The model follows the code. Each of these is proved, with the exact condition where there is one.

- The xBPI module docstring says input is drained after error replies too; only a malformed frame
  drains (`XbpiProtocolClient.ExecuteLocked`). After a timeout nothing is drained, so a late reply
  answers the next request and every later reply the request after its own (`ShiftPersists`), and a
  timeout inside the second read leaves the consumed length byte behind (`TimeoutKeepsBoundaryIff`).
- A fault in a counted or delimited read drops what was buffered; a timeout keeps it
  (`StepConserves`). A cap of zero means no cap in the serial transport and no bytes in the fake,
  where a negative argument slices from the end (`StepRefinesIff`).
- An SBI command reply that times out loses exactly the lines that were buffered
  (`ReplyLossOnTimeout`), and a requeued reply is put in front of the pending lines, which arrived
  before it (`RequeueOrder`).
- The two classifiers, meant to stay in lockstep, disagree on three families of lines
  (`ClassifiersAgreeIff`).
- Two overlapping `configure_protocol` calls can use the transport together
  (`OverlappingReconfigurationsCollide`): exactly when one of them can take the lock of a client
  retired while it waited (`ExclusiveUnlessLate`, `Overlap.ExclusionIff`).
- The BROKEN gate is not looked at again under the lock. A session that just broke still writes
  exactly when another reconfiguration was waiting, or the port stayed open and a call was waiting for
  the client in use (`Overlap.SilentIff`, `UntrackedBrokenStillWrites`).
- Rollback restores the framing the session remembers, which for a caller-built transport is a
  placeholder (`OverlayWhole`).
- Cancelling `configure_protocol` skips the rollback: the session is not BROKEN, and its transport is
  closed if the reopen was struck, and at the new framing if the probe was (`ConfigureProtocol`).
- A cache hit can be stale: exactly when the value changed, the counter moved by a multiple of 256,
  and no acknowledged call dropped the entry (`StaleIff`, `StaleAfterRunIff`).
- The synchronous `pipe` may write an empty list where the asynchronous one does not; the two agree
  for every clock exactly when no batch is empty (`TwinsIdenticalIff`).
- `configure_protocol` on a managed balance breaks the promise of its port, by path or by transport
  alike (`ReconfiguringKeepsPortsIff`): the port admits only devices that ask for the old protocol, and
  gives all of them the retired client (`RetiredClientIsShared`).
- `SartoriusManager.execute` misroutes requests when one balance object has two names
  (`RoutedRightIff`). Sequence gaps are exact only while the counter advances
  by less than 256 between two samples, duplicates only while it makes no whole turns
  (`GapsExactIff`, `DuplicatesExactIff`).

## Model

| member | source | states |
|---|---|---|
| Serial.SerialTransport.constructor | src/sartoriuslib/transport/serial.py:85-94 | starts closed at the given settings with an empty pushback buffer |
| Serial.SerialTransport.Open | src/sartoriuslib/transport/serial.py:96-135 | opens at most one port; a failing open leaves the transport closed |
| Serial.SerialTransport.Close | src/sartoriuslib/transport/serial.py:137-145 | closed afterwards; the pushback is dropped only if a port was open |
| Serial.SerialTransport.Reopen | src/sartoriuslib/transport/serial.py:147-177 | open at the overlaid framing or clearly closed; the overlaid framing is remembered either way |
| Serial.SerialTransport.Write | src/sartoriuslib/transport/serial.py:179-198 | a successful write puts exactly that request on the wire, a failed one a prefix of it, and reads are unaffected |
| Serial.SerialTransport.ReadExact | src/sartoriuslib/transport/serial.py:200-256 | the chunk loop with its pushback answers and leaves the line exactly like the chunk-free specification: count met, deadline with some bytes, deadline with none, fault |
| Serial.SerialTransport.ReadUntil | src/sartoriuslib/transport/serial.py:258-292 | the same for delimited reads; the surplus after the separator is pushed back |
| Serial.SerialTransport.ReadAvailable | src/sartoriuslib/transport/serial.py:294-321 | the same for idle-bounded reads; a cap of zero or below is no cap, and a fault ends the read like an idle line |
| Serial.SerialTransport.DrainInput | src/sartoriuslib/transport/serial.py:323-333 | forgets the pushback and what the kernel had buffered, nothing later |
| Line.ViewInterrupted | src/sartoriuslib/transport/serial.py:216-253 | what a reader holding some bytes is left with at a silence (bytes kept) and at a fault (bytes lost) |
| Line.ChunkBoundariesInvisible | src/sartoriuslib/transport/serial.py:211-240 | splitting a chunk anywhere, or an empty chunk, changes nothing any later read can observe |
| Line.StepConserves | src/sartoriuslib/transport/serial.py:200-321 | one read, any outcome: bytes returned then bytes still to come are the bytes there were, except that a fault in a counted or delimited read drops exactly what was buffered |
| Line.StepStaysFaultFree | src/sartoriuslib/transport/serial.py:235-256 | on input without faults no read reports one, and timeouts stay timeouts |
| Line.RunConserves | src/sartoriuslib/transport/serial.py:200-321 | over any run of reads on fault-free input, timeouts included, no byte is lost, duplicated or reordered |
| Line.UntilStopsAtFirst | src/sartoriuslib/transport/serial.py:258-292 | a delimited read returns everything up to and including the first separator of all that is still to come |
| Probes.ExactAnswers | src/sartoriuslib/transport/serial.py:200-256 | a counted read by its outcome: the first bytes when they precede the first interruption, the fault if one cuts it short, otherwise one of two timeouts by whether any byte had arrived |
| Probes.UntilAnswers | src/sartoriuslib/transport/serial.py:258-292 | a delimited read by its outcome: up to and including the first separator before the interruption, else the fault or a timeout |
| Probes.AvailableAnswers | src/sartoriuslib/transport/serial.py:294-321 | an idle-bounded read never fails: what precedes the interruption, up to a positive cap |
| Line.ChunksDeliverConcat | src/sartoriuslib/transport/base.py:199-218 | what the reads see of a chunked stream is its concatenation |
| Fake.FakeTransport.Write | src/sartoriuslib/transport/fake.py:129-147 | refused when closed or under the forced timeout; otherwise a scripted request queues its fixed or computed reply behind what is buffered, an unknown one queues nothing |
| Fake.FakeTransport.Read | src/sartoriuslib/transport/fake.py:149-202 | the three reads over one flat buffer, with the forced-timeout switch that the idle-bounded read ignores |
| Fake.StepRefinesIff | src/sartoriuslib/transport/fake.py:149-202 | exact arguments on which serial and fake agree on one read: no negative count that slices the buffer, no zero or negative cap on a non-empty buffer |
| Fake.RunRefines | src/sartoriuslib/transport/fake.py:149-202 | over any run of sensible reads the serial transport returns what the flat buffer returns and leaves the same bytes |
| Fake.SerialRefinesFlat | src/sartoriuslib/transport/fake.py:149-202 | the same from pushback and chunks: the kernel’s cutting of the stream does not matter |
| XbpiFraming.CommandsAreFramed | src/sartoriuslib/protocol/xbpi/framing.py:65-100 | exactly which commands are refused; an accepted one carries its length, checksum, addresses, opcode and arguments recoverably |
| XbpiFraming.AcceptsOnlyBuilt | src/sartoriuslib/protocol/xbpi/framing.py:103-158 | an accepted frame is the reply built from its own subtype and body |
| XbpiFraming.SumUpdate | src/sartoriuslib/protocol/xbpi/framing.py:57-62 | changing one byte moves the byte sum by exactly the difference |
| XbpiFraming.SingleByteCorruptionRejected | src/sartoriuslib/protocol/xbpi/framing.py:111-158 | any single-byte corruption of an accepted frame is rejected |
| XbpiFraming.FramesArePrefixFree | src/sartoriuslib/protocol/xbpi/framing.py:111-130 | no accepted frame is a proper prefix of another |
| XbpiFraming.ResizedFrameRejected | src/sartoriuslib/protocol/xbpi/framing.py:111-130 | every truncation and every extension of an accepted frame is rejected |
| XbpiFraming.SumAdds | src/sartoriuslib/protocol/xbpi/framing.py:57-62 | in a checksum every byte counts once with its value, wherever it stands |
| XbpiFraming.BuildReply | src/sartoriuslib/testing.py:58-66 | a reply frame exists exactly for bodies of at most 252 bytes |
| XbpiFraming.ReplyLayout | src/sartoriuslib/testing.py:58-66 | a built reply byte by byte: length, marker, subtype, body, checksum |
| XbpiFraming.ParseInvertsBuild | src/sartoriuslib/testing.py:58-66 | parsing a built reply gives back its subtype and body |
| XbpiTlv.ParseSequence | src/sartoriuslib/protocol/xbpi/tlv.py:109-125 | succeeds with the one list of well-formed records that encodes to the body; fails only if there is none, with the error of the first record that does not decode |
| XbpiTlv.SizeIsLowNibble | src/sartoriuslib/protocol/xbpi/tlv.py:36-43 | exactly six tags are known, and the size of each is its low nibble |
| XbpiTlv.EncodesIff | src/sartoriuslib/protocol/xbpi/tlv.py:46-77 | a number encodes exactly when the tag is known and it is at least 0 and below 256, 65536 or 4294967296 by size, bytes exactly when their length is the size; each refusal by its cause |
| XbpiTlv.DecodesIff | src/sartoriuslib/protocol/xbpi/tlv.py:80-106 | a record decodes exactly when its tag is there, known, and followed by enough bytes; each error by its cause |
| XbpiTlv.UniqueDecoding | src/sartoriuslib/protocol/xbpi/tlv.py:109-125 | two record lists with the same encoding are equal, so re-encoding a parsed body gives it back |
| XbpiTlv.NextRecordDecodes | src/sartoriuslib/protocol/xbpi/tlv.py:80-106 | on a decodable body every record boundary decodes |
| XbpiTlv.EncodeDecode | src/sartoriuslib/protocol/xbpi/tlv.py:46-106 | an encoded record decodes to itself in any surroundings and hands over the next offset |
| XbpiTlv.NumberRoundTrip | src/sartoriuslib/protocol/xbpi/tlv.py:58-71 | every number that fits survives big-endian encoding |
| XbpiTlv.BytesRoundTrip | src/sartoriuslib/protocol/xbpi/tlv.py:128-130 | every byte string survives the trip through its big-endian number |
| XbpiClient.XbpiProtocolClient.Dispose | src/sartoriuslib/protocol/xbpi/client.py:123-125 | retires the client |
| XbpiClient.XbpiProtocolClient.ExecuteLocked | src/sartoriuslib/protocol/xbpi/client.py:145-180 | a disposed client touches nothing; otherwise exactly one request is written, the reply is the next frame of the line, and only after a malformed frame the pushback and the events the kernel had buffered are dropped |
| XbpiClient.ExchangeReadsOneFrame | src/sartoriuslib/protocol/xbpi/client.py:153-180 | a well-formed frame at the head of the buffer is consumed exactly, as reply or refusal |
| XbpiClient.RepliesMean | src/sartoriuslib/protocol/xbpi/client.py:55-86 | for a buffered reply of any subtype and body: data exactly unless the subtype is 0x01, a malformed error exactly when its body is not one byte, otherwise the refusal of the literal code, 0x03, 0x04, 0x06, 0x07, 0x10, 0x11 or any other |
| XbpiClient.DeliversIff | src/sartoriuslib/protocol/xbpi/client.py:145-180 | an exchange delivers exactly when the buffered bytes start with a well-formed frame whose subtype is not 0x01 |
| XbpiClient.FramesRecovered | src/sartoriuslib/protocol/xbpi/client.py:145-180 | n exchanges over n concatenated frames return exactly their meanings in order and stop on the frame boundary |
| XbpiClient.FramesRecoveredFromChunks | src/sartoriuslib/protocol/xbpi/client.py:145-180 | the same through arbitrary chunking, leaving the line empty |
| XbpiClient.TimeoutKeepsBoundaryIff | src/sartoriuslib/protocol/xbpi/client.py:153-158 | a deadline inside a reply leaves the stream on the frame boundary exactly when no byte had arrived; otherwise the consumed length byte puts it out of step |
| XbpiClient.LateReplyAnswersNextRequest | src/sartoriuslib/protocol/xbpi/client.py:153-169 | after such a timeout nothing is drained and the late reply answers the next request |
| XbpiClient.ShiftPersists | src/sartoriuslib/protocol/xbpi/client.py:145-180 | after one timeout with late replies each of the next n requests is answered by the reply of the one before it |
| SbiClient.SplitLines | src/sartoriuslib/protocol/sbi/framing.py:101-120 | the index loop yields the newline-terminated pieces, or the error, of the payload |
| SbiClient.LinesPartition | src/sartoriuslib/protocol/sbi/framing.py:101-120 | the pieces concatenate to the payload and hold one newline each, at their end; they exist exactly for an empty payload or one ending in a newline |
| SbiText.StripTerminator | src/sartoriuslib/protocol/sbi/framing.py:92-98 | the result is a prefix of the line |
| SbiGrammar.BareShapeIff | src/sartoriuslib/protocol/sbi/framing.py:37-37 | what the bare-number expression accepts: a number and spaces around it |
| SbiGrammar.TerminatorIs | src/sartoriuslib/protocol/sbi/framing.py:92-98 | one CRLF goes, of a bare LF also the carriage returns before it, and a line without either stays |
| SbiGrammar.AutoprintIff | src/sartoriuslib/protocol/sbi/framing.py:123-137 | the lines taken for autoprint, character by character: not blank, no bare number fragment, and of the weight shape or under one of ten literal markers |
| SbiClassifier.PatternsAgree | src/sartoriuslib/protocol/sbi/framing.py:28-36 | the autoprint pattern and the parser’s weight pattern, written apart, accept the same strings |
| SbiClassifier.BareTestsAgree | src/sartoriuslib/protocol/sbi/framing.py:37-37 | the bare-number expression accepts exactly the texts on which the greedy weight match takes no optional group |
| SbiClassifier.MarkerFamilies | src/sartoriuslib/protocol/sbi/framing.py:38-49 | how the marker set of one classifier relates to the sets of the other |
| SbiClassifier.ClassifiersAgreeIff | src/sartoriuslib/protocol/sbi/framing.py:123-137 | on ASCII lines autoprint and kind WEIGHT agree exactly outside calibration markers, refusals that carry a number, and six spelled-out range markers |
| SbiClassifier.MatchedNumberIsDecimal | src/sartoriuslib/protocol/sbi/parser.py:33-42 | the number group of any weight match is text that float accepts |
| SbiClassifier.AcceptedLinesParse | src/sartoriuslib/protocol/sbi/parser.py:111-172 | parsing never raises on a line that looks like a weight |
| SbiGrammar.WeightShapeIff | src/sartoriuslib/protocol/sbi/parser.py:33-42 | what both weight patterns accept: spaces, an optional question mark, spaces, an optional id of a letter, at most five letters, digits or blanks and a space, an optional plus or minus, spaces, digits with an optional fraction or a point with digits, spaces, unit characters, spaces |
| SbiGrammar.KindIs | src/sartoriuslib/protocol/sbi/parser.py:78-108 | the kind of every line from its text and literal markers: non-ASCII, empty, refusal, calibration, weight |
| SbiGrammar.OffScaleIff | src/sartoriuslib/protocol/sbi/parser.py:111-172 | a line reads as off the scale exactly under the literal over and under markers, and as a weight exactly when it has the weight shape and none of them |
| SbiGrammar.MarkerIs | src/sartoriuslib/protocol/sbi/parser.py:240-245 | the marker a line is compared by: its words in capitals, one space between them however they were spaced out, without a leading STAT |
| SbiGrammar.StrippedMarkerIs | src/sartoriuslib/protocol/sbi/parser.py:240-245 | stripping a line takes its outer spaces and nothing else, and leaves its marker alone |
| SbiGrammar.ReplyReadsAs | src/sartoriuslib/protocol/sbi/parser.py:72-75 | a payload is malformed exactly when it does not end in a newline or is not ASCII, and otherwise a refusal exactly when one of its lines is, by the literal refusal markers |
| SbiClient.AsciiLinesParse | src/sartoriuslib/protocol/sbi/parser.py:72-108 | ASCII lines always parse, as lines or as a refusal carrying them |
| SbiClient.SbiProtocolClient.Dispose | src/sartoriuslib/protocol/sbi/client.py:71-74 | retires the client |
| SbiClient.SbiProtocolClient.MarkAutoprintActive | src/sartoriuslib/protocol/sbi/client.py:80-84 | sets the flag and puts the surprise payload, split into lines, in front of the pending ones |
| SbiClient.SbiProtocolClient.PushFront | src/sartoriuslib/protocol/sbi/client.py:262-273 | pushing the pieces in reverse keeps their order in front of the pending lines |
| SbiClient.SbiProtocolClient.Sniff | src/sartoriuslib/protocol/sbi/client.py:90-157 | bad bounds, a retired client, a closed port, and otherwise the functional sniff, with refresh forgetting the pending lines first; never writes |
| SbiClient.SbiProtocolClient.SniffLoop | src/sartoriuslib/protocol/sbi/client.py:105-120 | the detection loop equals the functional sniff |
| SbiClient.SbiProtocolClient.ReadLine | src/sartoriuslib/protocol/sbi/client.py:183-201 | a pending line first, else one from the transport; a retired client touches nothing; a malformed line drains exactly what had arrived |
| SbiClient.SbiProtocolClient.ExecuteLocked | src/sartoriuslib/protocol/sbi/client.py:203-226 | one request, then the stated number of lines straight from the transport, past the pending ones |
| SbiClient.SbiProtocolClient.ParseOrDrain | src/sartoriuslib/protocol/sbi/client.py:228-260 | refusals and replies leave the line alone; unparsable input drops the pushback and exactly the events that had arrived |
| Probes.SniffFinds | src/sartoriuslib/protocol/sbi/client.py:90-121 | sniffing by its outcome: what it reports, where it stops, and which interruption it swallows |
| SbiClient.UntilTakesFirstLine | src/sartoriuslib/protocol/sbi/client.py:183-201 | a line read takes the first CRLF line off the stream or, on a timeout, nothing |
| SbiClient.DetectConserves | src/sartoriuslib/protocol/sbi/client.py:102-121 | sniffing moves lines to the pending queue without changing what is owed |
| SbiClient.StepConservesLines | src/sartoriuslib/protocol/sbi/client.py:90-201 | one sniff or one line read: lines handed out then lines owed are the lines owed before |
| SbiClient.RunConservesLines | src/sartoriuslib/protocol/sbi/client.py:90-201 | over any run of sniffing and reading on ASCII input, timeouts included, lines handed out, pending and unread are the original sequence |
| SbiClient.ReplyLossOnTimeout | src/sartoriuslib/protocol/sbi/client.py:216-226 | a command reply is complete exactly when its lines are buffered; otherwise exactly the buffered lines are lost, so bytes are lost exactly when a terminator was buffered, and never for a reply of at most one line |
| SbiClient.RequeueOrder | src/sartoriuslib/protocol/sbi/client.py:262-273 | a requeued reply keeps its own order; arrival order survives every requeued reply exactly when nothing was pending |
| Session.Session.constructor | src/sartoriuslib/devices/session.py:123-181 | a session starts with nothing learned and the client its protocol needs |
| Session.Session.ReplaceClients | src/sartoriuslib/devices/session.py:350-395 | installs clients and forgets availability, warnings and cache, or refuses and changes nothing |
| Session.Session.MarkBroken | src/sartoriuslib/devices/session.py:397-405 | marks the session BROKEN |
| Session.Session.PassGates | src/sartoriuslib/devices/session.py:434-443 | the gates in order, each before any I/O, the prior gate warning at most once a command |
| Session.Session.ExecuteXbpi | src/sartoriuslib/devices/session.py:609-667 | result and availability after an encode failure and after each kind of xBPI reply |
| Session.Session.ExecuteSbi | src/sartoriuslib/devices/session.py:669-717 | the encode failure, the autoprint refusal, the surprise check and the availability after an SBI reply |
| Session.Session.Execute | src/sartoriuslib/devices/session.py:420-445 | gates then dispatch, equal to the functional specification of one call |
| Session.Session.CachedExecute | src/sartoriuslib/devices/session.py:447-475 | when a call hits, what it answers, what it sends, and what it stores |
| Session.Session.InvalidateCache | src/sartoriuslib/devices/session.py:477-487 | drops one entry or all |
| Session.Session.ExecuteRawXbpi | src/sartoriuslib/devices/session.py:719-775 | the gates of a raw xBPI call in their order, and what its reply means; availability untouched |
| Session.Session.ExecuteRawSbi | src/sartoriuslib/devices/session.py:777-821 | the same for SBI, with the autoprint refusal and the surprise check |
| Session.RawIsGated | src/sartoriuslib/devices/session.py:740-821 | a raw call reaches the client exactly when no gate refused it, and changes nothing the session learned but the autoprint flag |
| Session.GateFailureIsPreIO | src/sartoriuslib/devices/session.py:511-607 | a gate failure, and a request that cannot be encoded, leave the wire and the availability map untouched |
| Session.SentIff | src/sartoriuslib/devices/session.py:511-607 | a call reaches the client exactly when the session is not broken, the tier is read-only or stateful or the call is confirmed, a variant exists, the command is not UNSUPPORTED, under strict the hints hold, the request encodes, and it is no SBI command expecting lines under autoprint |
| Session.GateIs | src/sartoriuslib/devices/session.py:511-607 | which failed condition gives which refusal, in order |
| Session.AnswerIs | src/sartoriuslib/devices/session.py:609-717 | result and availability of every sent call, for each thing the wire can bring |
| Session.RawSentIff | src/sartoriuslib/devices/session.py:719-821 | the same for raw calls, with the safe list |
| Session.RawAnswerIs | src/sartoriuslib/devices/session.py:719-821 | the answer of every raw call |
| Session.CodesReachTheSession | src/sartoriuslib/devices/session.py:635-665 | an 0x04 or 0x06 reply on the line is the refusal the session reacts to |
| Session.EntryAnswers | src/sartoriuslib/devices/session.py:447-475 | an entry answers exactly the key and the counter it was stored under |
| Session.OtherwiseSentOnce | src/sartoriuslib/devices/session.py:434-445 | every outcome but a gate failure or an encode failure handed the command to the client exactly once |
| Session.UnsupportedIsSticky | src/sartoriuslib/devices/session.py:549-559 | over any calls without replaced clients UNSUPPORTED stays and the command sends nothing |
| Session.ParameterizedNeverDenied | src/sartoriuslib/devices/session.py:635-665 | a parameterized command never becomes UNSUPPORTED |
| Session.DeniedIff | src/sartoriuslib/devices/session.py:635-665 | exactly what makes a command UNSUPPORTED: an ungated xBPI 0x04 on a plain command |
| Session.WarnsAtMostOnce | src/sartoriuslib/devices/session.py:561-607 | between replacements each command warns about its priors at most once |
| Session.WarnsOncePerProtocol | src/sartoriuslib/devices/session.py:393-395 | over a whole session at most one warning a command for each protocol installed |
| Session.BrokenSendsNothing | src/sartoriuslib/devices/session.py:407-418 | BROKEN is absorbing for execute and the raw calls: no traffic, no warnings, still BROKEN |
| ConfigCache.InvAlways | src/sartoriuslib/devices/session.py:447-487 | over every interleaving of honest steps each entry was right at its pinned count and is right until the counter moves |
| ConfigCache.HitsAreCurrent | src/sartoriuslib/devices/session.py:447-475 | over any interleaving of cached reads, device changes and acknowledged writes a hit is the device’s present value, given fewer than 256 bumps since the entry’s counter read |
| ConfigCache.StaleIff | src/sartoriuslib/devices/session.py:447-487 | for every kind of step: a current entry goes stale exactly when the value changes, the counter moves by a multiple of 256 and no acknowledged call drops the entry |
| ConfigCache.StaleAfterRunIff | src/sartoriuslib/devices/session.py:447-487 | the same over any run, honest or not, that spares the entry |
| ConfigCache.CachedIsReachable | src/sartoriuslib/commands/system.py:53-64 | the counterexample world is reached by an ordinary cached read |
| ConfigCache.StaleHits | src/sartoriuslib/commands/system.py:53-64 | concrete stale hits: a full turn of the one-byte counter, a write that did not return, a silent change |
| ConfigCache.WriteIsNotHidden | src/sartoriuslib/devices/balance.py:818-837 | an acknowledged write is never answered from before it, whether or not it bumped the counter |
| Balance.Balance.WriteParameter | src/sartoriuslib/devices/balance.py:818-837 | one gated call, and the entry of that parameter is dropped exactly when it returns normally |
| Balance.Balance.ReadParameter | src/sartoriuslib/devices/balance.py:803-816 | reads through the cache: a hit repeats the entry of the present counter, and afterwards the entry holds the answer under that counter, other entries untouched |
| Balance.Balance.MenuCommand | src/sartoriuslib/devices/balance.py:977-987 | the same for save and reload, dropping every entry |
| Probes.XbpiAnswersIff | src/sartoriuslib/devices/balance.py:1402-1449 | the xBPI probe succeeds exactly when the bytes before the first interruption start with a well-formed frame whose subtype is not 0x01 |
| Probes.SbiProbeIff | src/sartoriuslib/devices/balance.py:1126-1139 | the SBI probe succeeds exactly when an autoprint line is among those sniffed or the next line parses without a refusal |
| Balance.ProbeSucceedsIff | src/sartoriuslib/devices/balance.py:1402-1449 | the condition the transaction turns on, from the events and write outcomes of the next open alone |
| Balance.SilenceAnswersNothing | src/sartoriuslib/devices/balance.py:1402-1449 | a port that refuses to open, or stays silent, satisfies no probe |
| Balance.Balance.ProbeXbpi | src/sartoriuslib/devices/balance.py:1402-1449 | a client comes back exactly when the identity exchange on the new port would succeed |
| Balance.Balance.ProbeSbi | src/sartoriuslib/devices/balance.py:1126-1139 | a client comes back exactly when autoprint was seen or the identity exchange succeeds |
| Balance.Balance.SwitchTransport | src/sartoriuslib/devices/balance.py:1114-1139 | drain, reopen and probe succeed exactly when the environment lets them; the overlaid framing is remembered either way |
| Balance.Balance.SwitchOver | src/sartoriuslib/devices/balance.py:1095-1165 | the section under the lock: switched exactly when the next open brings an answer, with the autoprint flag exactly when autoprint was seen among four lines; else rolled back |
| Balance.Balance.Install | src/sartoriuslib/devices/balance.py:1140-1157 | the new clients are in place, everything learned is forgotten, the replaced clients are retired |
| Balance.Balance.RollBack | src/sartoriuslib/devices/balance.py:1171-1217 | reopens at the remembered framing, or the session is BROKEN |
| Balance.Balance.ConfigureProtocol | src/sartoriuslib/devices/balance.py:1067-1165 | the transaction: each refusal before I/O by its cause; switched exactly when the next open brings an answer to the probe, never on a silent or refusing port; otherwise unchanged with the port open at the remembered framing, or BROKEN; cancellation at each point skips the rollback and leaves the session unbroken over a transport in a stated condition |
| Balance.Balance.CancelSwitch | src/sartoriuslib/devices/balance.py:1114-1139 | what a cancellation leaves of the transport: untouched while waiting, drained, closed at the old or the new settings, or open at the new framing |
| Balance.OverlayWhole | src/sartoriuslib/devices/balance.py:1452-1469 | the rollback restores the transport’s own old framing exactly when that was the framing the session remembered |
| Settings.Overlay | src/sartoriuslib/devices/balance.py:1452-1469 | overridden fields take the override, the others and the port name stay |
| Interleaving.InvAlways | src/sartoriuslib/devices/balance.py:1095-1157 | over every run without a late step: locks belong to the tasks that hold them and only the current client is in use |
| Interleaving.ExclusiveUnlessLate | src/sartoriuslib/devices/balance.py:1095-1157 | from any initial state, with any number of overlapping reconfigurations: at most one task uses the transport as long as none takes the lock of a client retired while it waited |
| Interleaving.SingleAlways | src/sartoriuslib/devices/balance.py:1095-1157 | runs with at most one reconfiguration in flight have no late step, and BROKEN with tracked framing leaves the port closed and nobody reconfiguring |
| Interleaving.SingleInFlight | src/sartoriuslib/devices/balance.py:1095-1157 | from any initial state, in every such run, at most one task uses the transport although clients have separate locks |
| Interleaving.RetiredNeverWrites | src/sartoriuslib/devices/balance.py:1472-1483 | a retired client never writes again, including callers queued on its lock and overlapping reconfigurations |
| Interleaving.RetiredNeverWritesFromStart | src/sartoriuslib/devices/balance.py:1472-1483 | the same, stated from the start of any run |
| Interleaving.BrokenIsSilent | src/sartoriuslib/devices/balance.py:1171-1217 | without overlap BROKEN stays, and if the framing was tracked not one more byte is written, not even by callers already past the gate |
| Interleaving.OverlappingReconfigurationsCollide | src/sartoriuslib/devices/balance.py:1095-1114 | two overlapping reconfigurations capture the same client and can use the transport while another exchange runs |
| Overlap.ExclusionIff | src/sartoriuslib/devices/balance.py:1095-1114 | from every state reached without a late step, with two tasks or more: mutual exclusion holds on all runs exactly when no run gets to a late step |
| Overlap.LateCollides | src/sartoriuslib/devices/balance.py:1095-1114 | where a late step is possible, whatever any other task is doing, some run puts two tasks on the transport |
| Overlap.SilentIff | src/sartoriuslib/devices/balance.py:1171-1217 | after the rollback that breaks the session, overlapping or not, tracked or not: nothing more is written exactly when no other reconfiguration was waiting and, if the port stayed open, no call was waiting for the client in use |
| Interleaving.UntrackedBrokenStillWrites | src/sartoriuslib/devices/balance.py:1186-1190 | with untracked framing a caller queued before BROKEN still writes |
| Interleaving.BrokenIffRollBackFailed | src/sartoriuslib/devices/balance.py:1171-1217 | a run breaks the session exactly when some rollback in it fails or has no framing to restore |
| Interleaving.NeverStuck | src/sartoriuslib/devices/balance.py:1095-1157 | no deadlock over the two kinds of lock: a busy task can move or waits for a lock whose holder can |
| Interleaving.RunsEnd | src/sartoriuslib/devices/balance.py:1095-1217 | without new calls every run is bounded, whoever is scheduled |
| Interleaving.CanFinish | src/sartoriuslib/devices/balance.py:1095-1217 | without overlap every run can be carried on until all tasks are idle and all locks are free |
| Recorder.TotalTicksIsNearest | src/sartoriuslib/streaming/recorder.py:261-261 | a finite run schedules the nearest whole number of slots, ties to even, at least one |
| Recorder.Publish | src/sartoriuslib/streaming/recorder.py:437-459 | every published batch counts once, as emitted or as late, by overflow policy; a cancelled blocking send counts as neither |
| Recorder.TargetAfterSkip | src/sartoriuslib/streaming/recorder.py:341-353 | after an unclamped skip the new target is at most one period old and not in the future |
| Recorder.SkipLands | src/sartoriuslib/streaming/recorder.py:346-346 | the truncated quotient is at least one and lands in the slot containing the present |
| Recorder.PollSlot | src/sartoriuslib/streaming/recorder.py:354-370 | one slot: waits for the target, polls, notes the drift, publishes; which disturbance stops it how, and a run that stops here counted nothing for it |
| Recorder.RunProducer | src/sartoriuslib/streaming/recorder.py:322-372 | however the run ends, every slot passed was polled on schedule or skipped by a reading that overran by a period and lies a period past that slot, late is the skipped slots plus the polls not emitted, a blocking run without overruns polls and emits every slot, an undisturbed finite run completes, and each other end has its cause |
| Recorder.MissedIs | src/sartoriuslib/streaming/recorder.py:340-353 | a reading skips slots exactly when it is more than a period past the target, only slots a whole period old, none beyond the run, and the next target is at most a period old |
| Pipe.Flush | src/sartoriuslib/sinks/base.py:213-227 | hands over and then clears the shared buffer, counting it; nothing on an empty buffer, nothing counted when the write raises |
| Pipe.PipeAsync | src/sartoriuslib/sinks/base.py:208-244 | on success exactly the specified calls, on a raising write exactly those before it; emitted is the samples delivered |
| Pipe.ExactlyOnce | src/sartoriuslib/sinks/base.py:208-244 | whatever the batches, clock and thresholds, the delivered arguments concatenate to the batch values |
| Pipe.FlushesWhenDue | src/sartoriuslib/sinks/base.py:213-228 | the calls are the batch values between the flushes, and a flush follows exactly the first batch at which the buffer reaches the size or the interval has passed; the rest, below the size, comes at the end |
| Pipe.PipeSync | src/sartoriuslib/sync/recording.py:154-187 | the separately written synchronous driver, against its own call sequence |
| Pipe.TwinsAgree | src/sartoriuslib/sync/recording.py:154-187 | the synchronous calls are the asynchronous ones plus calls with nothing in them |
| Pipe.TwinsIdenticalIff | src/sartoriuslib/sync/recording.py:154-187 | they are identical for every clock, monotone or not, exactly when no batch is empty |
| Pipe.EmptyFlushDiffers | src/sartoriuslib/sync/recording.py:166-173 | an empty batch at a timed flush is where they differ: the synchronous driver writes an empty list |
| SchemaLock.WidenJoins | src/sartoriuslib/sinks/_schema.py:139-142 | one widening step keeps the running type the least bound of the types seen |
| SchemaLock.JoinIsLeast | src/sartoriuslib/sinks/_schema.py:143-147 | the loop’s result, after its two fallbacks, is the least column type above all value types |
| SchemaLock.ColumnTypeIs | src/sartoriuslib/sinks/_schema.py:134-147 | the column type by the value types: int, bool or float when all are, float for int and float, text for everything else and for none |
| SchemaLock.OrderIrrelevant | src/sartoriuslib/sinks/_schema.py:122-148 | an inferred column does not depend on the order of the rows |
| SchemaLock.FirstSeenOrders | src/sartoriuslib/sinks/_schema.py:111-117 | column order is by first encounter, each key once |
| SchemaLock.SchemaLock.InferColumn | src/sartoriuslib/sinks/_schema.py:122-148 | the loop infers the least type, nullable exactly when some row lacks a value |
| SchemaLock.SchemaLock.OrderedKeys | src/sartoriuslib/sinks/_schema.py:111-117 | the nested loop collects the keys in order of first encounter |
| SchemaLock.SchemaLock.Lock | src/sartoriuslib/sinks/_schema.py:89-120 | locks once, on a non-empty batch, one inferred column for each key in order; otherwise changes nothing |
| SchemaLock.SchemaLock.Project | src/sartoriuslib/sinks/_schema.py:164-186 | exactly the locked columns with the row’s values, and one warning over the whole run for each unknown key; an error before the lock |
| SchemaLock.ProjectIdempotent | src/sartoriuslib/sinks/_schema.py:164-186 | projecting a projected row changes nothing and warns about nothing |
| Manager.SartoriusManager.constructor | src/sartoriuslib/manager.py:228-233 | an empty open manager |
| Manager.SartoriusManager.Add | src/sartoriuslib/manager.py:268-362 | every refusal and every I/O failure of add, equal to its functional specification; keeps the port invariant |
| Manager.SartoriusManager.ResolveSource | src/sartoriuslib/manager.py:478-547 | makes or shares the port of a source; a fresh port is torn down again when opening fails |
| Manager.SartoriusManager.OpenBalanceOnPort | src/sartoriuslib/manager.py:549-627 | AUTO, open failure, mixed protocols, shared client, identify failure, in that order |
| Manager.SartoriusManager.MaybeTeardownPort | src/sartoriuslib/manager.py:649-659 | closes an owned open transport, swallows a close error, and forgets the port |
| Manager.SartoriusManager.TeardownDevice | src/sartoriuslib/manager.py:629-647 | drops the ref and tears the port down with the last one |
| Manager.SartoriusManager.Remove | src/sartoriuslib/manager.py:364-381 | removes a known device of an open manager; otherwise changes nothing |
| Manager.SartoriusManager.Close | src/sartoriuslib/manager.py:393-407 | releases everything, last registered first, whatever raises; a second close does nothing |
| Manager.InvKept | src/sartoriuslib/manager.py:319-407 | add, failed add, remove and close keep the port invariant |
| Manager.InvAlways | src/sartoriuslib/manager.py:319-407 | it holds after every sequence of operations and failures |
| Manager.PortsServeTheirDevices | src/sartoriuslib/manager.py:506-547 | from a new manager: a port exists exactly while a device is keyed to it, its refs are exactly those devices, all on its one client and protocol |
| Manager.FailedAddChangesNothing | src/sartoriuslib/manager.py:511-547 | an add failing at any step leaves devices and ports as they were, and a transport it made is open only if closing it raised |
| Manager.AddAnswers | src/sartoriuslib/manager.py:319-362 | how every add ends, first adds included: each refusal and failure exactly by its cause, and added exactly otherwise |
| Manager.AddedIs | src/sartoriuslib/manager.py:340-362 | what a successful add leaves: the device last, on the client of its port or a new one, the refs grown by its name, every other port as it was |
| Manager.RemovedIs | src/sartoriuslib/manager.py:364-381 | what a removal leaves: the other devices in order, the port without the name, or no port after its last name |
| Manager.ClosedWithLastRef | src/sartoriuslib/manager.py:629-659 | removing a device closes a transport exactly when it is owned, the device was the last on its port and the close does not raise; a raising close leaks it; the port goes either way |
| Manager.CloseReleasesAll | src/sartoriuslib/manager.py:393-407 | after close nothing is registered and no owned transport is open save where closing it raised |
| Manager.RetiredClientIsShared | src/sartoriuslib/manager.py:589-602 | on a managed port, by path or by transport, after a reconfiguration: exactly which adds succeed, all of them asking for the old protocol, and all given the retired client |
| Manager.ReconfiguringKeepsPortsIff | src/sartoriuslib/manager.py:589-602 | reconfiguring a balance keeps the port invariant exactly when it was registered pre-built, with no managed port |
| Dispatch.Partition | src/sartoriuslib/manager.py:661-673 | the grouping loop: each group holds exactly its members in order, no group is empty |
| Dispatch.SameGroupIff | src/sartoriuslib/manager.py:667-673 | two requested devices share a group exactly when they are the same or keyed to the same port |
| Dispatch.ScheduleRunsEachOnce | src/sartoriuslib/manager.py:661-690 | however groups interleave every requested name runs exactly as often as requested |
| Dispatch.DispatchAnswersAll | src/sartoriuslib/manager.py:675-693 | one entry for each requested name, the outcome of its own last operation, unless the policy raises and something failed, or an exception outside the library escapes |
| Dispatch.NameByBalanceId | src/sartoriuslib/manager.py:447-447 | the dictionary maps each balance object to the last name registered for it |
| Dispatch.RoutedRightIff | src/sartoriuslib/manager.py:429-455 | a device gets its own request, for all requests, exactly when its balance object is not registered again under a later name |
| Jitter.Rows | src/sartoriuslib/cli/diagnostics/jitter.py:456-490 | each row’s delta is against the last sequence number seen before it; errors and unsequenced frames have none |
| Jitter.RowsAreSteps | src/sartoriuslib/cli/diagnostics/jitter.py:456-490 | interspersed errors drop out: the deltas are the steps between the sequence numbers seen |
| Jitter.DeltasTelescope | src/sartoriuslib/cli/diagnostics/jitter.py:689-692 | the deltas sum to last minus first modulo 256 |
| Jitter.GapsExactIff | src/sartoriuslib/cli/diagnostics/jitter.py:302-302 | reported gaps never exceed the device frames missed, and equal them exactly when the counter advanced by less than 256 between any two sequenced samples |
| Jitter.DuplicatesExactIff | src/sartoriuslib/cli/diagnostics/jitter.py:301-301 | reported duplicates are at least the repeated device frames, and equal them exactly unless two neighbouring samples are a whole number of turns apart |
| Jitter.PercentileMonotone | src/sartoriuslib/cli/diagnostics/jitter.py:676-686 | a percentile grows with its argument |
| Jitter.PercentileBounded | src/sartoriuslib/cli/diagnostics/jitter.py:676-686 | it lies between the 0th and 100th, which are the least and the greatest value |
| Jitter.PercentileIgnoresOrder | src/sartoriuslib/cli/diagnostics/jitter.py:676-686 | it depends only on the values, not on their order |
| Jitter.LinearBetween | src/sartoriuslib/cli/diagnostics/jitter.py:680-686 | on an order statistic the value is that statistic, between two it lies on the line through them |
| Jitter.PercentileIsLinear | src/sartoriuslib/cli/diagnostics/jitter.py:676-686 | the percentile at k + w of n - 1 equal steps: the k-th value in order plus w times the way to the next |

## Left out

- Recorder.RunProducer: the lateness bound allows for the delay between two consecutive clock readings, which the code does not bound.
- Balance.Balance.ConfigureProtocol: ends where the locked section ends, without the `identify` call after the switch; cancellation of the rollback itself is not modelled, and of a probe only what it leaves of the transport.
- ConfigCache.HitsAreCurrent: a write and its invalidation are one step, since no exchange of another task fits between them on one event loop.
- Manager.InvAlways: reconfiguring a managed balance, or closing a shared transport directly, is not among the operations.
- Manager.SartoriusManager.Add: a port entry is a value in the map rather than a shared object, and keys of paths and of transports are kept apart by construction.
- Pipe.ExactlyOnce: the sink copies what it is given; one that kept the list it was handed would see it cleared.
- Jitter.PercentileBounded: values are real numbers; rounding and non-finite floats are outside the model.
- Operating-system ports, `anyserial`, real sleeping and the event loop; lock waiting appears only in `Interleaving`.
- `set_baud_rate` and `write_sbn_address`: the same reconfiguration machinery behind one raw exchange.
- `detect_protocol`, discovery sweeps, cold-open retry, `identify` composition, `StreamingSession` and the maintenance helpers: short linear sequences.
- `temporary_autoprint`, and the overflow policy that drops the oldest sample, which the code does not implement.
- Encoding and decoding of individual commands: measurement floats, bit fields, unit, mode and alias tables.
- Value, unit and sign of a parsed weight line: only that parsing succeeds, and which lines are off the scale, is proved.
- `SchemaLock.lock_to`, and the CSV, JSONL, Parquet, Postgres and SQLite writers.
- Command-line parsing, text output, logging, error contexts and message text, and the portal wrappers of `sync/`.
- Timing rows of the jitter report other than the sequence column, and its mean and deviation.
- The inactive client of a session in `Interleaving`; `Balance` covers both clients.
