# Flipper application and service models

Dafny models of six pockets of the repository that hold protocols or algorithms, with proofs about
every input or every run of them. Code that updates objects in place is a class whose methods are
proved against a specification function or an observed history; the main results are lemmas about
those specifications, or loops over every sequence of events.

| file | what it models |
|---|---|
| `U2fHid.dfy` | the U2F HID transport (FIDO U2F HID Protocol v1.2, sections 2.4 and 2.5.4): reports, the sender, the stateful receiver and dispatcher (`HidProtocol`), theorems over report streams (`HidTheorems`), the worker object (`Hid`) |
| `ExpansionProtocol.dfy` | frames, checksum and grammar (`ExpansionFrames`); the incremental decoder and the encoder over callbacks (`ExpansionCodec`) |
| `ExpansionService.dfy` | the service's control state machine with its worker and its detection callback |
| `InfraredRemote.dfy` | the infrared remote: list edits (`SignalLists`), what every operation makes of index and file for given outcomes of the storage calls (`InfraredColumns`), the file system and the remote object (`SignalFiles`, `InfraredRemotes`) |
| `CliVcp.dfy` | the USB serial port service: how a host reads packets (`UsbTransfers`), the service as a function of what happens (`VcpRuns`), the service object (`CliVcp`) |
| `UartEcho.dfy` | the six-line rotating screen against an unbounded log (`TerminalLog`, `UartEcho`); which character stands where, told from the input alone (`TerminalText`) |
| `U2fDer.dfy` | DER encoding of signatures (ITU-T X.690 section 8.3, RFC 3279 section 2.2.3) and a strict decoder |
| `U2fToken.dfy` | the token (FIDO U2F Raw Message Formats, sections 4 and 5): counter file (`U2fFiles`), messages (`U2fMessages`), a device's life with presence, counters and restarts (`U2fLife`), the token object (`U2fToken`), its place in the transport (`U2fDevice`) |
| `U2fRelyingParty.dfy` | what the other end of the protocol makes of the token's answers, from the bytes of its own request and of the answer alone |
| `Numerals.dfy`, `UidFormat.dfy` | number formatting; UID byte orders, bit reversal and the eight text formats, with what the texts tell about the UID |
| `UidApp.dfy` | the read scene and the scan thread against a history of events |

## How to read the results

Three kinds of reference definitions are independent of the code they are compared with: the wire
grammar of the expansion protocol and the strict DER decoder; the unbounded log, the host's view of
USB transfers and the histories of the read scene and of the control messages; and the pure list
edits behind the infrared file. Methods of the classes are tied to them by `ensures` clauses that
state the whole new state. What the specification functions say is fixed in turn by theorems that do
without them: in literal bytes and positions, by what the other end rebuilds, decodes or checks, or by
what a whole history amounts to.

The environment is free: a receive callback may return any non-empty chunk, interrupts and events come
in any order, and the outcome of every storage and enclave call is an input of the operation that makes
it, so that what happens is a function of the inputs and every failing case can be named. `malloc`
returns zeroed memory; a handler, a callback or one scan iteration is one atomic step; a storage call
either happens or leaves everything as it was, except the rename, which consists of two. Cryptography
is uninterpreted, except that decryption undoes encryption and that signatures have non-zero halves.

## Where the code meets a property only under a condition

- U2F HID: an initialisation report that declares too much is rejected after it has overwritten the
  packet's length field. While a request is pending nothing follows from that. With nothing pending, a
  continuation report is dispatched again (line 272 of `u2f_hid.c` asks only for a zero remainder), and
  an echo would then use that length. `HidTheorems.OverrunExactlyWhen` gives the exact condition,
  `HidTheorems.OverrunIsReachable` the reports that lead there, and
  `HidTheorems.FittingRunsStayInBounds` shows that lengths that fit exclude it.
- Infrared, load: `infrared_remote_load` treats a failed read of a name like the end of the file and
  reports no error. The index is right if and only if no such read fails (`LoadIsWholeIff`). A short
  index is repaired by the next batch, which drops the records that were not indexed (`BatchAlignment`);
  if a signal is appended first, the index is wrong from then on and the batch drops the new record
  (`ShortIndexThenAppend`). All of it happens (`ShortIndexIsReachable`).
- Infrared, rename: `storage_common_rename` removes the destination, ignoring whether that works, and then
  renames. If only the removal works the batch reports an error and the file is lost; if only the rename
  gets through it reports that the destination exists, which `infrared_remote.c` line 226 takes for
  success although the old file is still there. `BatchIsAtomicIff` and `BatchKeepsWholeIff` give the
  exact conditions, `HalfRenamesAreReachable` the cases.
- Infrared, move: a move makes two renames. `MoveIsRightIff` and `MoveKeepsWholeIff` say for all outcomes
  when it does what it should; `MoveLosesFile` and `MoveMisleads` show that every move can fail to.
- Token: `u2f_authenticate` does not look at the result of writing the counter, and `u2f_init` resets a
  counter that cannot be read. Two answers in a row carry increasing counters if and only if no start in
  between resets the counter and, if there is a start, the first answer's write worked
  (`DeviceAnswersIncreaseIff`); either failure alone makes them repeat (`CountersRepeat`). The 32-bit
  counter increases if and only if it is not at its maximum (`IncrementWraps`).
- USB serial port, towards the host: the length of the last packet survives a disconnection, and its
  tx-done event is ignored while disconnected. Within a connection every transfer is ended; across
  connections it is if and only if the remembered length is not that of a full packet
  (`VcpRuns.Reconnect`, `VcpRuns.OpenTransferSurvivesReconnect`).
- USB serial port, towards the shell: a packet whose event is handled while disconnected stays in the
  endpoint, and nothing in the next connection looks for it until the host sends again
  (`VcpRuns.StuckIsReachable`, `VcpRuns.StuckForGood`). Within a connection waiting packets that are not
  empty are fetched if and only if bytes to read, an announcement of space or a queued event is there
  (`Vcp.Settle`).
- Expansion protocol: the comment on a data frame's size asks for less than 64, the decoder accepts 64.
  The model follows the code.
- UID app: the first detection of a session is compared with an empty UID. A detection of length zero
  is therefore typed only if a UID is stored, and then as an empty line; `UidAppHistory.Typed` says so.

## Model

| member | source | states |
|---|---|---|
| `HidTheorems.RoundTrip` | FlipperMainApplications Example/main/u2f/u2f_hid.c:215-277 | From any state the invariant allows, the reports of any message (top bit of the command set, 0 to 7609 bytes), with skippable continuation reports anywhere in between, are all ignored except the last, which dispatches exactly that channel, command, length and payload |
| `HidTheorems.DispatchedOnceByIndex` | FlipperMainApplications Example/main/u2f/u2f_hid.c:272-276 | What "dispatched once" means report by report: the last outcome is the dispatch of the message and every earlier one is ignored |
| `HidTheorems.EchoRoundTrip` | FlipperMainApplications Example/main/u2f/u2f_hid.c:137-138 | A ping that completes is answered by reports from which any other receiver, in whatever state, rebuilds the very message that was sent |
| `HidTheorems.TokenIsAnswered` | FlipperMainApplications Example/main/u2f/u2f_hid.c:140-148 | A complete token message is answered: any receiver, in whatever state, that is fed the reports rebuilds the token's reply on the same channel if there is one and no other channel holds the lock, and error 1 otherwise |
| `HidTheorems.InitIsAnswered` | FlipperMainApplications Example/main/u2f/u2f_hid.c:162-174 | A complete channel initialisation is answered: 8 bytes on the broadcast channel while nothing is locked give the nonce, the new channel and 2, 1, 0, 1, 1; anything else error 1 |
| `HidTheorems.OthersAreAnswered` | FlipperMainApplications Example/main/u2f/u2f_hid.c:150-182 | An empty wink goes back, a lock request of one byte is not answered, and every other wink, lock request or unknown command is answered with error 1 |
| `HidTheorems.ShortMessageArrives` | FlipperMainApplications Example/main/u2f/u2f_hid.c:221-243 | A report of the protocol's layout with up to 57 bytes, fed in any state, is dispatched as the message it carries |
| `HidTheorems.InitReportLayout` | FlipperMainApplications Example/main/u2f/u2f_hid.c:95-104 | Byte by byte: channel, command, length with the high byte first, at most 57 bytes of data, zeros up to 64 |
| `HidTheorems.ContReportLayout` | FlipperMainApplications Example/main/u2f/u2f_hid.c:109-115 | Channel, sequence number, at most 59 bytes, zeros up to 64 |
| `HidTheorems.MalformedReports` | FlipperMainApplications Example/main/u2f/u2f_hid.c:218-248 | A report too short for its kind, or declaring more than 7609 bytes, is ignored and ends what was pending; an empty one changes nothing |
| `HidTheorems.StrayContinuation` | FlipperMainApplications Example/main/u2f/u2f_hid.c:272-276 | A continuation with nothing pending handles the packet once more |
| `HidTheorems.CollectingRun` | FlipperMainApplications Example/main/u2f/u2f_hid.c:249-271 | While a request is pending, woven continuation reports and noise bring it to its single dispatch, from every intermediate cursor and sequence number |
| `HidTheorems.NoiseIsIgnored` | FlipperMainApplications Example/main/u2f/u2f_hid.c:254-255 | A continuation of at least five bytes with a foreign channel or a wrong sequence number leaves a pending request exactly as it was |
| `HidTheorems.ContinuationIsAccepted` | FlipperMainApplications Example/main/u2f/u2f_hid.c:256-268 | The expected continuation extends the collected prefix by its chunk and moves cursor, remainder and sequence number on; the one that completes the message dispatches it |
| `HidTheorems.SenderNeedsAtMost128Continuations` | FlipperMainApplications Example/main/u2f/u2f_hid.c:108-119 | A message takes at most 129 reports of 64 bytes; continuation k carries the channel and sequence number k, which never looks like a command |
| `HidTheorems.PendingStaysInBounds` | FlipperMainApplications Example/main/u2f/u2f_hid.c:221-270 | In every state reachable from start-up by reports of 0 to 64 bytes, a pending request has cursor + remainder = declared length <= 7609 |
| `HidTheorems.CompletionIsGenuine` | FlipperMainApplications Example/main/u2f/u2f_hid.c:250-276 | A continuation of at least five bytes completes a pending request if and only if it is on its channel, in sequence and long enough; the request is what was collected followed by its bytes |
| `HidTheorems.OverrunExactlyWhen` | FlipperMainApplications Example/main/u2f/u2f_hid.c:227-231 | The one outcome outside the model (echoing more than the payload holds) occurs if and only if a continuation arrives with nothing pending while the packet is a ping whose length field a rejected oversized report has overwritten |
| `HidTheorems.OverrunIsReachable` | FlipperMainApplications Example/main/u2f/u2f_hid.c:227-276 | From every start-up three reports lead there: an empty ping, a report declaring 65535 bytes, a continuation |
| `HidTheorems.LockStep` | FlipperMainApplications Example/main/u2f/u2f_hid.c:140-160 | Only a complete lock request moves the lock, and it does whoever holds it and on whatever channel it comes; while the lock holds, token messages on other channels are answered with an error |
| `HidTheorems.LockHoldsIff` | FlipperMainApplications Example/main/u2f/u2f_hid.c:140-283 | Over every run in which no lock request completes, a lock still holds at the end if and only if no turn of the worker has seen the timer's flag; and then no other channel has got an answer from the token |
| `HidTheorems.FittingRunsStayInBounds` | FlipperMainApplications Example/main/u2f/u2f_hid.c:221-276 | Over every run whose initialisation reports declare lengths that fit, that outcome never occurs, pending or not |
| `Hid.U2fHid.SendResponse` | FlipperMainApplications Example/main/u2f/u2f_hid.c:88-120 | The loop hands to the driver exactly the reports of the packet, in order, and changes nothing else |
| `Hid.U2fHid.SendError` | FlipperMainApplications Example/main/u2f/u2f_hid.c:122-127 | The packet becomes a one-byte error message on the same channel, and its reports are sent |
| `Hid.U2fHid.ParseRequest` | FlipperMainApplications Example/main/u2f/u2f_hid.c:129-184 | Each command does what the reference dispatcher says, whose answers the theorems above rebuild at the other end: echo, token message (refused on a foreign channel while locked, or without an answer), lock and unlock, channel initialisation, wink with its notification, refusal of everything else |
| `Hid.U2fHid.BeginRequest` | FlipperMainApplications Example/main/u2f/u2f_hid.c:232-243 | The first chunk, channel, command and remainder of a request are taken from the report |
| `Hid.U2fHid.DispatchRequest` | FlipperMainApplications Example/main/u2f/u2f_hid.c:272-276 | A refused request is answered with the invalid-command error, and nothing but the reference responses goes out |
| `Hid.U2fHid.StoreInit` | FlipperMainApplications Example/main/u2f/u2f_hid.c:221-243 | The branch for initialisation reports refines the reference receiver, including what its early exits have already written |
| `Hid.U2fHid.StoreContinuation` | FlipperMainApplications Example/main/u2f/u2f_hid.c:244-271 | The branch for continuation reports refines the reference receiver |
| `Hid.U2fHid.HandleReport` | FlipperMainApplications Example/main/u2f/u2f_hid.c:215-278 | One report through the worker object keeps the invariant and gives the reference state, outcome, responses and timer |
| `Hid.U2fHid.Turn` | FlipperMainApplications Example/main/u2f/u2f_hid.c:200-283 | One turn of the worker's loop: the request branch, then the unlock branch if the timer's flag is seen |
| `Hid.U2fHid.constructor` | FlipperMainApplications Example/main/u2f/u2f_hid.c:294-297 | The allocated object is all zero, whatever the worker's stack buffer holds |
| `ExpansionFrames.DecodeEncode` | FlipperMainApplications Example/services/expansion/expansion_protocol.h:307-369 | Parsing an encoded well-formed frame followed by anything gives the frame and leaves exactly what followed |
| `ExpansionFrames.EncodeDecode` | FlipperMainApplications Example/services/expansion/expansion_protocol.h:307-369 | Whatever parses re-encodes to exactly the bytes consumed, and is well formed |
| `ExpansionFrames.DecodeAllEncodeAll` | FlipperMainApplications Example/services/expansion/expansion_protocol.h:307-369 | A list of frames survives the concatenation of its encodings, in order, with the rest of the stream untouched |
| `ExpansionFrames.CorruptionIsDetected` | FlipperMainApplications Example/services/expansion/expansion_protocol.h:288-341 | Any one wrong byte other than the type and a data frame's size gives a checksum error and leaves the decoder at the frame boundary |
| `ExpansionFrames.XorUpdate` | FlipperMainApplications Example/services/expansion/expansion_protocol.h:288-295 | How the checksum reacts to the replacement of one byte anywhere |
| `ExpansionFrames.ChecksumIsParity` | FlipperMainApplications Example/services/expansion/expansion_protocol.h:288-295 | A byte is the checksum if and only if each of its bits is the parity of the number of bytes that have the bit set, by counting |
| `ExpansionFrames.WellFormedExactlyWhen` | FlipperMainApplications Example/services/expansion/expansion_protocol.h:46-50 | Well formed are exactly the types 1 to 5 with 1, 2, 5, 2 and 2 + n bytes, n at most 64 |
| `ExpansionFrames.FramesOnTheWire` | FlipperMainApplications Example/services/expansion/expansion_protocol.h:307-341 | Any of these with any byte behind it is that frame if the byte is the checksum, and a checksum error otherwise, and leaves what follows |
| `ExpansionFrames.FrameCutShort` | FlipperMainApplications Example/services/expansion/expansion_protocol.h:219-267 | Any beginning of one is incomplete |
| `ExpansionFrames.MalformedStarts` | FlipperMainApplications Example/services/expansion/expansion_protocol.h:219-267 | An unknown type is a format error that costs one byte, a data size above 64 one that costs two |
| `ExpansionFrames.RemainingSizeReadsReceived` | FlipperMainApplications Example/services/expansion/expansion_protocol.h:219-267 | The request for more bytes depends on received bytes only |
| `ExpansionCodec.Checksum` | FlipperMainApplications Example/services/expansion/expansion_protocol.h:288-295 | The loop computes the byte whose bits are the parities of the bytes' bits |
| `ExpansionCodec.Decode` | FlipperMainApplications Example/services/expansion/expansion_protocol.h:307-341 | On a live link the status, the frame and the bytes left are those the stream's meaning calls for, for every chunking; on any link it is that or a communication error; success consumes frame size + 1 bytes and leaves the rest of the buffer alone |
| `ExpansionCodec.ReceivePart` | FlipperMainApplications Example/services/expansion/expansion_protocol.h:321-328 | A receive call never writes past the 66 bytes of the frame and never takes more than the frame, as far as it is known, needs |
| `ExpansionCodec.Finish` | FlipperMainApplications Example/services/expansion/expansion_protocol.h:331-340 | The checksum byte decides between success and checksum error exactly as the grammar does |
| `ExpansionCodec.DecodeAll` | FlipperMainApplications Example/services/expansion/expansion_protocol.h:307-341 | Decoding n times in a row over a live link that carries n encoded frames gives those frames in order and stops exactly behind the last, however the link cuts the stream |
| `ExpansionCodec.Encode` | FlipperMainApplications Example/services/expansion/expansion_protocol.h:351-369 | Format error exactly for unknown types; success sends exactly the encoding; a communication error has sent a proper prefix of it and never happens on a link that takes everything; a size beyond the frame is flagged as undefined |
| `ExpansionCodec.KnownType` | FlipperMainApplications Example/services/expansion/expansion_protocol.h:191-206 | The encoded size is 0 exactly for unknown types, exceeds the frame exactly for data sizes over 64, and otherwise cuts a well-formed frame out of it |
| `ExpansionControl.ServingSinceConnected` | FlipperMainApplications Example/services/expansion/expansion.c:95-222 | A port is served if and only if a module connected while the service listened there and nothing has disturbed it since; the connection is established if and only if the worker has said so since |
| `ExpansionControl.ListensExactlyWhen` | FlipperMainApplications Example/services/expansion/expansion.c:95-222 | From the messages alone: a port is served if and only if a module connected while it was the port chosen and nothing has disturbed it since, and listened on if and only if it is the one chosen last and no module is served; after a disconnection it is listened on again |
| `ExpansionControl.OnAndOff` | FlipperMainApplications Example/services/expansion/expansion.c:95-178 | The service is off if and only if nothing switched it on since it was last switched off, and on a port if and only if that port was the last one chosen |
| `ExpansionControl.ServingHasStart` | FlipperMainApplications Example/services/expansion/expansion.c:180-222 | A service that serves a port has a moment since which it has served it undisturbed |
| `ExpansionControl.ServedSinceIsServing` | FlipperMainApplications Example/services/expansion/expansion.c:180-222 | From such a moment on the service serves that port |
| `ExpansionService.Expansion.OnEnable` | FlipperMainApplications Example/services/expansion/expansion.c:95-114 | Enabling from the disabled state listens on the configured port; otherwise, or with an index out of range, nothing changes |
| `ExpansionService.Expansion.OnDisable` | FlipperMainApplications Example/services/expansion/expansion.c:116-133 | Disabling stops and frees a live worker or removes the callback, and ends disabled |
| `ExpansionService.Expansion.OnSetListenSerial` | FlipperMainApplications Example/services/expansion/expansion.c:135-158 | The same port changes nothing; another one tears down what there was and listens there |
| `ExpansionService.Expansion.OnReloadSettings` | FlipperMainApplications Example/services/expansion/expansion.c:160-178 | A valid index listens there, any other disables |
| `ExpansionService.Expansion.OnModuleConnected` | FlipperMainApplications Example/services/expansion/expansion.c:180-195 | Only a listening service gives up the callback for a worker |
| `ExpansionService.Expansion.OnModuleDisconnected` | FlipperMainApplications Example/services/expansion/expansion.c:197-210 | A serving service frees its worker and listens again on the same port |
| `ExpansionService.Expansion.OnConnectionEstablished` | FlipperMainApplications Example/services/expansion/expansion.c:212-222 | A serving service remembers the connection; any other ignores the message |
| `ExpansionService.Expansion.OnIsConnected` | FlipperMainApplications Example/services/expansion/expansion.c:224-227 | The answer is whether a connection is established |
| `ExpansionService.Expansion.WorkerFree` | FlipperMainApplications Example/services/expansion/expansion.c:124-125 | Only a live worker is ever freed, once |
| `ExpansionService.Expansion.Serve` | FlipperMainApplications Example/services/expansion/expansion.c:242-261 | Over every sequence of messages: workers allocated minus freed is 1 exactly while serving and 0 otherwise, and the callback is installed on exactly the listening port |
| `InfraredColumns.LoadIsWholeIff` | FlipperMainApplications Example/main/infrared/infrared_remote.c:442-447 | After a load the index is the whole name column if and only if no read of an existing record's name fails; otherwise it is a shorter prefix, with no error reported |
| `InfraredColumns.AppendAlignment` | FlipperMainApplications Example/main/infrared/infrared_remote.c:134-160 | An append keeps a whole index whole and a wrong one wrong; a short one stays a prefix only if the new name is that of the first record it had missed |
| `InfraredColumns.BatchAlignment` | FlipperMainApplications Example/main/infrared/infrared_remote.c:193-228 | A batch that replaces the file leaves a whole index if and only if the index was right about every record that keeps its name, so it repairs a short one by dropping what was not indexed |
| `InfraredColumns.BatchKeepsWholeIff` | FlipperMainApplications Example/main/infrared/infrared_remote.c:225-239 | A whole index stays whole through a batch if and only if the rename does all or none of its work, or the edit renames an entry to its own name |
| `InfraredColumns.BatchIsAtomicIff` | FlipperMainApplications Example/main/infrared/infrared_remote.c:189-239 | An error leaves index and file as they were if and only if it does not strike after the removal of the old file; a success is the edit if the old file could be removed, and otherwise leaves the file untouched |
| `InfraredColumns.BatchSucceedsExactlyWhen` | FlipperMainApplications Example/main/infrared/infrared_remote.c:189-228 | A batch succeeds if and only if every call it makes does, named one by one: opens, header, the read of every indexed record, the saves the edit asks for, closes, rename |
| `InfraredRemotes.FirstFailureIsReported` | FlipperMainApplications Example/main/infrared/infrared_remote.c:203-216 | A batch that stops at a record reports the first that is not there or could not be copied |
| `InfraredColumns.EditByPosition` | FlipperMainApplications Example/main/infrared/infrared_remote.c:253-335 | Position by position, which record an insert, a rename or a delete leaves there |
| `InfraredColumns.AppendExactly` | FlipperMainApplications Example/main/infrared/infrared_remote.c:134-160 | An append succeeds if and only if the file can be opened and the record saved, and then adds record and name at the end |
| `InfraredColumns.FetchExactly` | FlipperMainApplications Example/main/infrared/infrared_remote.c:84-114 | A signal is given if and only if both calls work and the file has a record at the index, and it is that record's |
| `InfraredColumns.LoadableExactlyWhen` | FlipperMainApplications Example/main/infrared/infrared_remote.c:403-440 | A file is loaded if and only if it can be opened and read and has the header "IR signals file" and version 1 |
| `InfraredColumns.LoadThatWorks` | FlipperMainApplications Example/main/infrared/infrared_remote.c:403-455 | A load in which every call works makes the remote that file, with all its names in order |
| `InfraredColumns.StepThatWorks` | FlipperMainApplications Example/main/infrared/infrared_remote.c:134-376 | Every other operation in which every call works does to the file what it does to a list, and keeps the index whole |
| `InfraredColumns.RunThatWorks` | FlipperMainApplications Example/main/infrared/infrared_remote.c:134-376 | Over every run in which every call works, the file is the list edited by the operations in turn and the index its names |
| `InfraredColumns.OtherFilesSurvive` | FlipperMainApplications Example/main/infrared/infrared_remote.c:162-251 | Over every run, whatever fails, a file that is not the remote's own is neither lost nor changed |
| `InfraredColumns.NewFilesAreTemporary` | FlipperMainApplications Example/main/infrared/infrared_remote.c:182-187 | Over every run a new file is a temporary one of a remote loaded on the way |
| `InfraredColumns.ShortIndexThenAppend` | FlipperMainApplications Example/main/infrared/infrared_remote.c:134-228 | A short index, an append under another name than the first one missed, and a batch: the index is wrong from the append on, the batch mends it only at that very entry, and the appended record is lost from the file |
| `InfraredColumns.ShortIndexIsReachable` | FlipperMainApplications Example/main/infrared/infrared_remote.c:445-447 | For every file and every record in it there is a load that indexes exactly the records before it |
| `InfraredColumns.HalfRenamesAreReachable` | FlipperMainApplications Example/main/infrared/infrared_remote.c:225-239 | From every whole index, with every other call working, an insert or a delete can lose the file and report an error, or keep the old file and report success |
| `InfraredColumns.MoveIsRightIff` | FlipperMainApplications Example/main/infrared/infrared_remote.c:350-376 | A move within a right index, short or whole, does what it should (a success moves the record, a failure leaves the list as it was or without that record, the index right) if and only if the guards say so: it stops before its first rename or that does nothing; or that does all of its work and the insert's does all, none or is not reached; or two half-done renames happen to give the moved list |
| `InfraredColumns.MoveKeepsWholeIff` | FlipperMainApplications Example/main/infrared/infrared_remote.c:350-376 | Exactly when a whole index stays whole through a move, for every outcome of both renames |
| `InfraredColumns.MoveAlignment` | FlipperMainApplications Example/main/infrared/infrared_remote.c:350-376 | In particular a move is right if both renames do all or none of their work |
| `InfraredColumns.MoveLosesFile` | FlipperMainApplications Example/main/infrared/infrared_remote.c:350-376 | Every move within a whole index can lose the file and report an error |
| `InfraredColumns.MoveMisleads` | FlipperMainApplications Example/main/infrared/infrared_remote.c:350-376 | Every move within a whole index can report success and leave a wrong index |
| `InfraredColumns.StepStaysWholeIff` | FlipperMainApplications Example/main/infrared/infrared_remote.c:134-455 | For every operation the exact condition that it leaves a whole index whole |
| `InfraredColumns.RunStaysWholeIff` | FlipperMainApplications Example/main/infrared/infrared_remote.c:134-455 | Over every run, from any time at which the index is whole, it stays whole if and only if no operation on the way meets the condition that damages it |
| `SignalFiles.Storage.RenameFile` | FlipperMainApplications Example/services/storage/storage_external_api.c:521-535 | Removes the destination, ignoring the result, and renames; a destination that could not be removed is reported to exist and nothing changes |
| `InfraredRemotes.InfraredRemote.Load` | FlipperMainApplications Example/main/infrared/infrared_remote.c:403-455 | Succeeds exactly on a readable file with the right header and version; then the index is the names up to the first that cannot be read; an error tells which of these failed and leaves the remote alone |
| `InfraredRemotes.InfraredRemote.LoadSignal` | FlipperMainApplications Example/main/infrared/infrared_remote.c:84-114 | Gives the signal stored at the index, or fails exactly if a call fails or there is no such record |
| `InfraredRemotes.InfraredRemote.AppendSignal` | FlipperMainApplications Example/main/infrared/infrared_remote.c:134-160 | Adds the record at the end of the file and the name at the end of the index, or changes neither |
| `InfraredRemotes.InfraredRemote.BatchStart` | FlipperMainApplications Example/main/infrared/infrared_remote.c:162-251 | From any index, right or wrong, index, file and reported error are those of the reference for the given outcomes, the error naming the record if a record stopped it; no other file is touched but the temporary one, which is gone after a success that could remove the old file, and after an error if its own removal works |
| `InfraredRemotes.InfraredRemote.Run` | FlipperMainApplications Example/main/infrared/infrared_remote.c:134-455 | Every run of load, append, insert, rename, delete and move, to its end and with any outcome at every storage call, goes through the worlds that the reference prescribes; no other file is lost or changed, and new ones are temporary files, at most one for each batch |
| `InfraredRemotes.InfraredRemote.Rewrite` | FlipperMainApplications Example/main/infrared/infrared_remote.c:189-228 | The same up to the rollback of the names |
| `InfraredRemotes.InfraredRemote.Replace` | FlipperMainApplications Example/main/infrared/infrared_remote.c:225-227 | The copy takes the place of the file as far as the rename goes, and two of its statuses count as success |
| `InfraredRemotes.InfraredRemote.CopySignals` | FlipperMainApplications Example/main/infrared/infrared_remote.c:203-216 | The loop succeeds exactly if as many records as there are names can be read and written, and then has written the edited records and edited the index at the same place |
| `InfraredRemotes.InfraredRemote.Callback` | FlipperMainApplications Example/main/infrared/infrared_remote.c:253-335 | Each callback writes the new, the renamed or no record at the target and passes every other one through |
| `InfraredRemotes.InfraredRemote.InsertSignal` | FlipperMainApplications Example/main/infrared/infrared_remote.c:271-288 | Inserts at the index, or appends past the end |
| `InfraredRemotes.InfraredRemote.RenameSignal` | FlipperMainApplications Example/main/infrared/infrared_remote.c:307-319 | Renames the record at the index |
| `InfraredRemotes.InfraredRemote.DeleteSignal` | FlipperMainApplications Example/main/infrared/infrared_remote.c:337-348 | Deletes the record at the index |
| `InfraredRemotes.InfraredRemote.MoveSignal` | FlipperMainApplications Example/main/infrared/infrared_remote.c:350-376 | Fetches the signal from the file and its name from the index, deletes and inserts; each step stops at its first failure |
| `SignalLists.NamesOfEdit` | FlipperMainApplications Example/main/infrared/infrared_remote.c:253-335 | Editing the records and editing the names give the same name column |
| `SignalLists.WrittenStep` | FlipperMainApplications Example/main/infrared/infrared_remote.c:203-216 | Record by record, the batch writes what the edit of the whole list calls for |
| `SignalLists.MovedPlaces` | FlipperMainApplications Example/main/infrared/infrared_remote.c:350-376 | A move puts the record at the new index, keeps the order of the others and the multiset of records |
| `SignalLists.MovedBack` | FlipperMainApplications Example/main/infrared/infrared_remote.c:350-376 | Moving i to j and then j to i is the identity, at the end of the list too |
| `SignalLists.MovedNowhere` | FlipperMainApplications Example/main/infrared/infrared_remote.c:357 | Moving a record to its own place changes nothing, so the early return is right |
| `UsbTransfers.CompletedPlusOpen` | FlipperMainApplications Example/services/cli/cli_vcp.c:67-80 | Finished transfers and the open one together are all bytes sent (USB 2.0, section 5.8.3) |
| `UsbTransfers.NothingHeldBackIff` | FlipperMainApplications Example/services/cli/cli_vcp.c:74 | The host has everything if and only if the last packet was short |
| `VcpRuns.NextKeepsValid` | FlipperMainApplications Example/services/cli/cli_vcp.c:67-251 | Every single happening, in any state, keeps the byte counts on both sides, at most one packet in flight, the memory of how the last packet ended, and the promise that work left makes the service look again |
| `VcpRuns.RunConserves` | FlipperMainApplications Example/services/cli/cli_vcp.c:67-251 | Over every interleaving from start-up: the packets of a connection and the unsent bytes are what the shell wrote, at most one packet is in flight, and all the host has sent is, in order, what was taken before the connection, what the shell got, what it may still read and what waits in the endpoint |
| `VcpRuns.RestIsComplete` | FlipperMainApplications Example/services/cli/cli_vcp.c:67-80 | At rest the host has been given all that the shell wrote in finished transfers; if a packet was sent the last one was short |
| `VcpRuns.SendingKeeps` | FlipperMainApplications Example/services/cli/cli_vcp.c:67-80 | After a look at the pipe a packet is in flight or no work is left |
| `VcpRuns.ReceivingKeeps` | FlipperMainApplications Example/services/cli/cli_vcp.c:87-95 | A packet is taken only if any packet fits, and goes whole to the end of what the shell may read |
| `VcpRuns.NextPacket` | FlipperMainApplications Example/services/cli/cli_vcp.c:71-79 | The packet sent next holds 64 bytes or all there are, from the front of the pipe; none is sent if there are none, unless the one before was full |
| `VcpRuns.OnePacketAtATime` | FlipperMainApplications Example/services/cli/cli_vcp.c:67-70 | While a packet is on its way, or without a connection, none is sent |
| `VcpRuns.PacketIsTakenIff` | FlipperMainApplications Example/services/cli/cli_vcp.c:87-95 | The oldest waiting packet is taken, whole, if and only if at most 128 of the 192 bytes are unread |
| `VcpRuns.WriteIsTakenIff` | FlipperMainApplications Example/services/cli/cli_vcp.c:235-244 | A write of the shell is taken whole and announced if and only if it fits in the 192 bytes of a connected pipe; otherwise nothing changes |
| `VcpRuns.ReadIsGivenIff` | FlipperMainApplications Example/services/cli/cli_vcp.c:235-244 | A read of the shell gives the oldest bytes and is announced if and only if there are so many |
| `VcpRuns.ConnectedIsLastLine` | FlipperMainApplications Example/services/cli/cli_vcp.c:116-131 | Over every interleaving: once the event queue is empty, the service is connected if and only if the host's last word on the line was that it is active |
| `VcpRuns.StepsComeCloser` | FlipperMainApplications Example/services/cli/cli_vcp.c:67-155 | Each step of the service, the bus and a reading shell reduces what is left to do |
| `VcpRuns.StaysFetchable` | FlipperMainApplications Example/services/cli/cli_vcp.c:82-95 | Waiting packets, none of them empty, stay announced: by bytes to read, an announcement of space or a queued event |
| `VcpRuns.StuckForGood` | FlipperMainApplications Example/services/cli/cli_vcp.c:87-113 | Waiting packets that nothing announces stay where they are whatever happens, a new connection included, until the host sends again |
| `VcpRuns.StuckIsReachable` | FlipperMainApplications Example/services/cli/cli_vcp.c:87-113 | It happens to every packet whose event is handled while disconnected |
| `VcpRuns.Reconnect` | FlipperMainApplications Example/services/cli/cli_vcp.c:229-234 | A new connection that finds nothing pending leaves the wire at the end of a transfer if and only if the remembered length is not that of a full packet |
| `VcpRuns.OpenTransferSurvivesReconnect` | FlipperMainApplications Example/services/cli/cli_vcp.c:212-234 | The other case is reachable for every full packet |
| `CliVcp.Vcp.MaybeSendData` | FlipperMainApplications Example/services/cli/cli_vcp.c:67-80 | Has exactly the reference's effect, and hands a packet to the endpoint only while that is free |
| `CliVcp.Vcp.MaybeReceiveData` | FlipperMainApplications Example/services/cli/cli_vcp.c:87-95 | Has exactly the reference's effect, and the pipe accepts every packet whole |
| `CliVcp.Vcp.CdcTxDone` | FlipperMainApplications Example/services/cli/cli_vcp.c:105-109 | The interrupt frees the endpoint and queues its event |
| `CliVcp.Vcp.CdcRx` | FlipperMainApplications Example/services/cli/cli_vcp.c:111-114 | The interrupt queues its event for the packet that has arrived |
| `CliVcp.Vcp.CdcLine` | FlipperMainApplications Example/services/cli/cli_vcp.c:116-131 | Line changes are queued as events |
| `CliVcp.Vcp.DataFromShell` | FlipperMainApplications Example/services/cli/cli_vcp.c:145-149 | The callback for data looks at the pipe once per announcement |
| `CliVcp.Vcp.ShellReady` | FlipperMainApplications Example/services/cli/cli_vcp.c:151-155 | The callback for space looks at the endpoint once per announcement |
| `CliVcp.Vcp.InternalEventHappened` | FlipperMainApplications Example/services/cli/cli_vcp.c:194-251 | Each event has exactly the reference's effect |
| `CliVcp.Vcp.OnConnected` | FlipperMainApplications Example/services/cli/cli_vcp.c:229-249 | A new connection gets a new, empty pipe; a repeated one changes nothing |
| `CliVcp.Vcp.OnDisconnected` | FlipperMainApplications Example/services/cli/cli_vcp.c:212-227 | The pipe goes away with its callbacks |
| `CliVcp.Vcp.Handle` | FlipperMainApplications Example/services/cli/cli_vcp.c:67-251 | Every happening has exactly the reference's effect on the whole state |
| `CliVcp.Vcp.Run` | FlipperMainApplications Example/services/cli/cli_vcp.c:67-251 | Every sequence of happenings leads to the reference's state |
| `CliVcp.Vcp.Settle` | FlipperMainApplications Example/services/cli/cli_vcp.c:67-155 | The service never stalls towards the host: in whatever order packets, events, announcements and reads are handled, a connection comes to rest with everything written delivered in finished transfers; and towards the shell, unless a waiting packet was empty, all packets are fetched if and only if there were none or something announced them |
| `TerminalLog.LogKeepsEverything` | FlipperMainApplications Example/debug/uart_echo/uart_echo.c:154-194 | The lines of the unbounded log join to exactly the printable characters outside escape sequences |
| `TerminalLog.LogTracksEscapes` | FlipperMainApplications Example/debug/uart_echo/uart_echo.c:155-162 | The escape flag is on exactly inside "ESC [" ... letter |
| `TerminalLog.LinesFit` | FlipperMainApplications Example/debug/uart_echo/uart_echo.c:165-166 | No line ever exceeds 21 characters |
| `TerminalText.EscapesAreOpen` | FlipperMainApplications Example/debug/uart_echo/uart_echo.c:155-162 | Inside an escape sequence means: somewhere ESC and a bracket, and no letter since |
| `TerminalText.PrintedAreShown` | FlipperMainApplications Example/debug/uart_echo/uart_echo.c:162 | Printed are exactly the characters 32 to 126 outside escape sequences |
| `TerminalText.StandsThere` | FlipperMainApplications Example/debug/uart_echo/uart_echo.c:189-191 | A printed character stays in the line and column in which it was put |
| `TerminalText.NeighboursPart` | FlipperMainApplications Example/debug/uart_echo/uart_echo.c:164-191 | Two printed characters with none between them stand on different lines if and only if a line break came between them or the first stood in column 21; the second starts its line then and follows the first otherwise |
| `TerminalText.FirstStartsItsLine` | FlipperMainApplications Example/debug/uart_echo/uart_echo.c:164-191 | The first printed character starts its line |
| `TerminalText.LastLineBlank` | FlipperMainApplications Example/debug/uart_echo/uart_echo.c:164-187 | The current line is empty if and only if nothing was printed since the last line break that began a run |
| `TerminalText.DoneLineBlank` | FlipperMainApplications Example/debug/uart_echo/uart_echo.c:164-187 | A line above it is empty if and only if two such breaks came with nothing printed between them, or one before anything was printed |
| `TerminalText.LastSixLines` | FlipperMainApplications Example/debug/uart_echo/uart_echo.c:174-187 | What the screen shows: the last six lines, or all of them and nothing below, with the cursor on the last |
| `TerminalLog.ShowsNewLine` | FlipperMainApplications Example/debug/uart_echo/uart_echo.c:174-187 | A new line moves the cursor or scrolls, and the screen still shows the last six lines |
| `TerminalLog.ShowsPushBack` | FlipperMainApplications Example/debug/uart_echo/uart_echo.c:189-191 | Appending at the cursor appends to the last line of the log |
| `UartEcho.UartDumpModel.Rotate` | FlipperMainApplications Example/debug/uart_echo/uart_echo.c:177-186 | Scrolling rotates the six elements by one and clears the one that comes round |
| `UartEcho.UartDumpModel.NewStringNeeded` | FlipperMainApplications Example/debug/uart_echo/uart_echo.c:164-172 | A new line is needed exactly when the log needs one: the current line is full, or at the first line break in a row; the theorems on TerminalText say what that does to the text |
| `UartEcho.UartDumpModel.Push` | FlipperMainApplications Example/debug/uart_echo/uart_echo.c:154-194 | One character does to the screen what it does to the log |
| `UartEcho.UartDumpModel.Receive` | FlipperMainApplications Example/debug/uart_echo/uart_echo.c:207-223 | After any stream of blocks the screen shows the last six lines of the log of everything received, on a permutation of the six original elements |
| `U2fDer.SignatureRoundTrip` | FlipperMainApplications Example/main/u2f/u2f.c:165-194 | For all non-zero r and s of 32 bytes the encoding is accepted by a strict decoder (minimal, non-negative, all lengths exact), which returns their values; it has 8 to 72 bytes |
| `U2fDer.SignatureInjective` | FlipperMainApplications Example/main/u2f/u2f.c:185-194 | The encoding determines the 64 signature bytes |
| `U2fDer.EncodeInt` | FlipperMainApplications Example/main/u2f/u2f.c:165-183 | Writes exactly the integer's encoding at the offset and nothing else |
| `U2fDer.SkipZeros` | FlipperMainApplications Example/main/u2f/u2f.c:169-173 | Stops within the value at its first non-zero byte |
| `U2fDer.EncodeSignature` | FlipperMainApplications Example/main/u2f/u2f.c:185-194 | Writes exactly the signature's encoding at the offset and nothing else |
| `U2fFiles.RevInvolution` | FlipperMainApplications Example/main/u2f/u2f_data.c:416-419 | Swapping twice would undo the migration, so it must happen once |
| `U2fFiles.BigEndian4Value` | FlipperMainApplications Example/main/u2f/u2f.c:323-325 | The counter field read big-endian is the counter |
| `U2fFiles.ReadKeepsMeaning` | FlipperMainApplications Example/main/u2f/u2f_data.c:416-420 | Reading a file leaves one that stands for the same value, in the new version |
| `U2fFiles.OldFileIsMigrated` | FlipperMainApplications Example/main/u2f/u2f_data.c:416-420 | A file in which the old version left a counter, its bytes highest first, reads as that counter and becomes a version 2 file with the counter in its field; every later read whose calls work gives the same and leaves the file |
| `U2fFiles.ReadableExactlyWhen` | FlipperMainApplications Example/main/u2f/u2f_data.c:371-420 | A file is read if and only if its calls work, its type is the counter file's, the control value is 0xAA5500FF and the version is 2, or 1 and the rewrite works |
| `U2fFiles.WrittenByThisVersion` | FlipperMainApplications Example/main/u2f/u2f_data.c:425-466 | What is written has that type, version 2, the control value and the counter in its field |
| `U2fFiles.CounterStore.CntWrite` | FlipperMainApplications Example/main/u2f/u2f_data.c:425-466 | Succeeds exactly if key, cipher and file work; the file then stands for the value, and otherwise is left alone |
| `U2fFiles.CounterStore.CntRead` | FlipperMainApplications Example/main/u2f/u2f_data.c:353-423 | Gives the value the file stands for exactly if every call works, and migrates an old file, as OldFileIsMigrated and ReadableExactlyWhen spell out in bytes |
| `U2fFiles.CounterStore.ReadRepeatedly` | FlipperMainApplications Example/main/u2f/u2f_data.c:353-423 | However often the file is read, every read in which no call fails gives the value the file stood for, for an old file the counter whose bytes were left there, and no read gives another |
| `U2fMessages.IssuedHandleIsKnown` | FlipperMainApplications Example/main/u2f/u2f.c:272-318 | A key handle copied from a registration answer is accepted for the same application, and the key that then signs is the one whose public half was issued with it |
| `U2fRelyingParty.EnrolledKeySigns` | FlipperMainApplications Example/main/u2f/u2f.c:272-413 | Enrolment and use: who sends back the handle from a registration answer, with any later challenge, gets an assertion that checks against the private half of the public key it was given |
| `U2fRelyingParty.HandleIsBound` | FlipperMainApplications Example/main/u2f/u2f.c:376-400 | An accepted handle accepted with another application or nonce, or another such pair with the same key, is a collision of HMAC |
| `U2fRelyingParty.RegistrationAnswer` | FlipperMainApplications Example/main/u2f/u2f.c:238-321 | From request and answer alone: 0x05, public key, 64, handle, certificate, a signature that a strict decoder reads as the certificate key's over zero, application, challenge, handle and public key, 0x9000; or the refusal 0x6985 or 0x6D00 |
| `U2fRelyingParty.AuthenticationAnswer` | FlipperMainApplications Example/main/u2f/u2f.c:327-422 | From request and answer alone: the presence byte, four bytes that read as the next counter, a signature that a strict decoder reads as the key's over application, that byte, those four and the challenge, 0x9000; or the refusal |
| `U2fRelyingParty.RefusedExactlyWhen` | FlipperMainApplications Example/main/u2f/u2f.c:338-406 | Which refusal when: 0x6D00 if files are missing, 0x6A80 for a foreign handle, 0x6985 in mode 3 without presence or in mode 7 with a known handle; and no refusal otherwise |
| `U2fRelyingParty.OtherAnswers` | FlipperMainApplications Example/main/u2f/u2f.c:424-443 | Command 3 is answered with "U2F_V2" 0x9000, every command but 1, 2 and 3 with 0x6D00 |
| `U2fToken.U2fData.WriteAssertion` | FlipperMainApplications Example/main/u2f/u2f.c:407-413 | The in-place answer is the reference assertion for this counter, computed from the request before it is overwritten |
| `U2fToken.U2fData.Init` | FlipperMainApplications Example/main/u2f/u2f.c:120-152 | A token that starts holds the value read from the counter file, or 0, which is then written; it does not start without its keys or if that write fails |
| `U2fToken.U2fData.Register` | FlipperMainApplications Example/main/u2f/u2f.c:238-321 | Succeeds exactly with files present and a confirmation, which it uses up; the answer in the buffer is the registration message or the right refusal |
| `U2fToken.U2fData.WriteRegistration` | FlipperMainApplications Example/main/u2f/u2f.c:259-320 | The in-place answer is computed from the request before it is overwritten, around the certificate loaded into it |
| `U2fToken.U2fData.Authenticate` | FlipperMainApplications Example/main/u2f/u2f.c:327-422 | Succeeds exactly if no refusal applies; the answer, read back by AuthenticationAnswer, carries the presence bit and the incremented counter, which the file then stands for exactly if it could be written; the confirmation is used up |
| `U2fToken.U2fData.MsgParse` | FlipperMainApplications Example/main/u2f/u2f.c:424-443 | The answer in the buffer is the one that command and state call for; no answer leaves the buffer alone; the counter moves exactly with a signed authentication |
| `U2fDevice.TokenReply` | FlipperMainApplications Example/main/u2f/u2f_hid.c:142-146 | The token's answer, written over the payload in place, is a reply as the transport's reference splices it in |
| `U2fLife.PresenceIsSpentOnce` | FlipperMainApplications Example/main/u2f/u2f.c:161-456 | Over every life, registrations and answers with the presence bit never outnumber the confirmations; all three are counted in the log of what happened |
| `U2fLife.StaysBalanced` | FlipperMainApplications Example/main/u2f/u2f.c:161-456 | Each single event keeps that balance, counting a confirmation still unused |
| `U2fLife.SignatureReportsPresence` | FlipperMainApplications Example/main/u2f/u2f.c:345-353 | A signature reports presence exactly if the token held a confirmation, always in enforce mode, and none is left afterwards |
| `U2fLife.PresentIffConfirmed` | FlipperMainApplications Example/main/u2f/u2f.c:161-456 | A running token holds a confirmation if and only if the user gave one since it was started and since then no change of state and no request handled with the files in order has taken it |
| `U2fLife.DeedsFromEvents` | FlipperMainApplications Example/main/u2f/u2f.c:238-422 | What an event adds to the log: a confirmation, a registration with files and presence, a signature with the next counter, or nothing |
| `U2fLife.EffectSimulates` | FlipperMainApplications Example/main/u2f/u2f.c:120-422 | The fate of the counter in file, memory and sent answers depends on nothing but whether an event reads the file, resets it, loses the memory or signs, and whether the write works |
| `U2fLife.CountersLag` | FlipperMainApplications Example/main/u2f/u2f.c:138-145 | Whatever fails, a running token has a counter file, which may lag behind its memory and is never ahead of it |
| `U2fLife.AnswersIncreaseIff` | FlipperMainApplications Example/main/u2f/u2f.c:410-417 | Two answers in a row carry increasing counters if and only if no start in between had to reset the counter and, if there was a start, the first answer's counter had reached the file |
| `U2fLife.DeviceAnswersIncreaseIff` | FlipperMainApplications Example/main/u2f/u2f.c:138-145 | The same on the device, from any state and whatever happens in between; after a reset the second answer carries 1 |
| `U2fLife.CountersIncrease` | FlipperMainApplications Example/main/u2f/u2f.c:410-417 | Over every run of durable effects below 2^32 the counters sent increase strictly |
| `U2fLife.DeviceCountersIncrease` | FlipperMainApplications Example/main/u2f/u2f.c:120-456 | Over every life in which readable counter files are read and the counters of delivered answers are written, the counters sent increase strictly across any number of restarts and power losses |
| `U2fLife.CountersRepeat` | FlipperMainApplications Example/main/u2f/u2f.c:138-145 | On every device, if the first answer's write fails or the restart cannot read the file, the answers around the restart both carry 1 |
| `U2fLife.IncrementWraps` | FlipperMainApplications Example/main/u2f/u2f.c:356 | The next counter is higher if and only if the counter is not at the 32-bit maximum |
| `U2fToken.Device.AuthenticateOnce` | FlipperMainApplications Example/main/u2f/u2f_hid.c:142-146 | A signature is logged with the counter and the presence that its answer's bytes carry, delivered or not, after the counter was written if that works |
| `U2fToken.Device.Answer` | FlipperMainApplications Example/main/u2f/u2f_hid.c:142-146 | The counter and the presence that are logged are read from bytes 1 to 5 and byte 0 of the answer in the buffer |
| `U2fToken.Device.RegisterOnce` | FlipperMainApplications Example/main/u2f/u2f_hid.c:142-146 | A registration is logged exactly for an answer that starts with 0x05 |
| `U2fToken.Device.Step` | FlipperMainApplications Example/main/u2f/u2f.c:120-456 | Each event has exactly the reference's effect on file, memory and log |
| `U2fToken.Device.Run` | FlipperMainApplications Example/main/u2f/u2f.c:120-456 | Every life of the device, whatever storage does, is the reference's |
| `Numerals.DecRoundTrip` | MainApplication/FlipUIDConv_app_i.c:92 | The digits printed denote the number, whatever the field width |
| `Numerals.DecWidth` | MainApplication/FlipUIDConv_app_i.c:92 | A number below 10^width fills the field exactly with decimal digits |
| `UidTheorems.DigitsAre` | MainApplication/FlipUIDConv_app_i.c:64 | The sixteen digits are "0123456789ABCDEF" |
| `UidFormat.LittleIsBigReversed` | MainApplication/FlipUIDConv_app_i.c:26-42 | For every length, little-endian is big-endian of the reversed bytes |
| `UidFormat.SwapNetwork` | MainApplication/FlipUIDConv_app_i.c:19-24 | The three swaps move bit k to bit 7 - k |
| `UidFormat.ReverseNumberBit` | MainApplication/FlipUIDConv_app_i.c:19-24 | The reference reversal of n bits puts bit n-1-k at k and leaves nothing above |
| `UidFormat.ReversedBytesReverseNumber` | MainApplication/FlipUIDConv_app_i.c:97-103 | For every length, big-endian over bit-reversed bytes is the bit reversal of the little-endian number |
| `UidFormat.UidToUint64Be` | MainApplication/FlipUIDConv_app_i.c:26-33 | The big-endian value of the last eight bytes at most, within 64 bits |
| `UidFormat.UidToUint64Le` | MainApplication/FlipUIDConv_app_i.c:35-42 | The little-endian value of the first eight bytes at most, within 64 bits |
| `UidFormat.FormatUid` | MainApplication/FlipUIDConv_app_i.c:44-140 | The text of every format, for every length, including the short ones |
| `UidFormat.FormatZkCodier` | MainApplication/FlipUIDConv_app_i.c:108-130 | Ten digits with the sixth dropped, each expanded to two |
| `UidTheorems.Ik2IsReversedIk3` | MainApplication/FlipUIDConv_app_i.c:89-107 | For every UID of at least five bytes the IK2 number is the 40-bit reversal of the IK3/IS number |
| `UidTheorems.DecimalFormsHaveThirteenDigits` | MainApplication/FlipUIDConv_app_i.c:89-107 | Both decimal forms are exactly 13 decimal digits |
| `UidTheorems.DecimalFormsDetermineFiveBytes` | MainApplication/FlipUIDConv_app_i.c:89-107 | Each decimal form agrees for two UIDs if and only if their first five bytes do |
| `UidTheorems.Hex10IsReversedCompact` | MainApplication/FlipUIDConv_app_i.c:67-77 | Hex10 is the compact text of the first five bytes bit-reversed |
| `UidTheorems.Hex8IsPrefixOfHex10` | MainApplication/FlipUIDConv_app_i.c:67-88 | Hex8 is the first eight characters of Hex10 |
| `UidTheorems.SpacedIsCompactWithSpaces` | MainApplication/FlipUIDConv_app_i.c:58-66 | The spaced text without its spaces is the compact text |
| `UidTheorems.CompactRoundTrip` | MainApplication/FlipUIDConv_app_i.c:58-66 | The compact text parses back to the UID |
| `UidTheorems.PairsByPosition` | MainApplication/FlipUIDConv_app_i.c:58-66 | Compact: two digits a byte, the high one first; spaced: the same pairs, a space between two of them and nowhere else |
| `UidTheorems.Hex8IsReversedCompact` | MainApplication/FlipUIDConv_app_i.c:78-88 | Hex8 of four bytes or more is the compact text of the first four bit-reversed |
| `UidTheorems.Ik3IsByBytes` | MainApplication/FlipUIDConv_app_i.c:89-96 | The IK3/IS digits denote the first five bytes, lowest first |
| `UidTheorems.IsByBytes` | MainApplication/FlipUIDConv_app_i.c:135-138 | The IS digits denote the first eight bytes, lowest first, without leading zeros |
| `UidTheorems.NotAvailableExactlyWhen` | MainApplication/FlipUIDConv_app_i.c:50-134 | "N/A" is shown exactly for an empty UID, for fewer than five bytes in Hex10, IK3/IS, IK2 and ZK/Codier, and for fewer than four in Hex8 |
| `UidTheorems.ZkTextHasEighteenDigits` | MainApplication/FlipUIDConv_app_i.c:108-134 | The ZK/Codier text is always 18 decimal digits |
| `UidTheorems.ZkTextCollisions` | MainApplication/FlipUIDConv_app_i.c:108-134 | Two UIDs share a ZK/Codier text if and only if their first five bytes agree everywhere but in the low nibble of byte 2 |
| `UidTheorems.ZkTextByPosition` | MainApplication/FlipUIDConv_app_i.c:108-134 | Which nibble each pair of its digits writes: bytes 4, 3, 2, 1, 0 from high to low, without the low nibble of byte 2 |
| `UidAppHistory.TypedByIndex` | MainApplication/FlipUIDConv_app_i.c:407-418 | The lines typed automatically are, in order, the texts of exactly the detections that differ from the one before, the first from the empty UID, and found the keyboard connected |
| `UidAppHistory.QuietUnlessLooping` | MainApplication/FlipUIDConv_app_i.c:380-389 | Outside a running scan loop the current session holds no detection |
| `UidAppHistory.PhasesFromEvents` | MainApplication/FlipUIDConv_app_i.c:434-458 | From the events alone: a scan is on if and only if the scene was entered or the mode changed and the scene not left since; its loop runs if and only if the thread has begun since the last start |
| `UidAppHistory.SessionOpens` | MainApplication/FlipUIDConv_app_i.c:380-384 | A session starts empty when the scene is entered or the mode changes, and ends when it is left |
| `UidAppHistory.SessionGrows` | MainApplication/FlipUIDConv_app_i.c:407-418 | It gains every tag that the running loop finds, cut to 16 bytes, in the format of that moment |
| `UidAppHistory.SessionStays` | MainApplication/FlipUIDConv_app_i.c:434-444 | And changes by nothing else |
| `UidAppHistory.FormatFromEvents` | MainApplication/scenes/FlipUIDConv_scene_read.c:140-153 | The format starts as the second of eight, moves one place left or right in a circle, and is chosen only while nothing scans |
| `UidAppHistory.FormatsByIndex` | MainApplication/scenes/FlipUIDConv_scene_read.c:5-14 | Which format each of the eight indices shows; at the start the spaced one |
| `UidApp.App.RefreshUid` | MainApplication/FlipUIDConv_app_i.c:473-481 | The display line becomes empty or the stored UID in the current format |
| `UidApp.App.ScanStart` | MainApplication/FlipUIDConv_app_i.c:434-444 | Starting twice changes nothing |
| `UidApp.App.ScanStop` | MainApplication/FlipUIDConv_app_i.c:446-458 | Stopping joins the thread, whose prologue may still clear the display line |
| `UidApp.App.ScanIteration` | MainApplication/FlipUIDConv_app_i.c:407-418 | A detection extends the history: stored, shown and typed exactly if it differs from the stored UID |
| `UidApp.App.OnEnter` | MainApplication/scenes/FlipUIDConv_scene_read.c:96-108 | Entering the scene opens a session |
| `UidApp.App.OnExit` | MainApplication/scenes/FlipUIDConv_scene_read.c:182-192 | Leaving it closes the session and clears the UID |
| `UidApp.App.OnUp` | MainApplication/scenes/FlipUIDConv_scene_read.c:124-135 | Changing the mode closes the session and opens another |
| `UidApp.App.OnLeft` | MainApplication/scenes/FlipUIDConv_scene_read.c:140-148 | The previous format, cyclically, with the display line kept in step |
| `UidApp.App.OnRight` | MainApplication/scenes/FlipUIDConv_scene_read.c:149-153 | The next format, cyclically, with the display line kept in step |
| `UidApp.App.OnOk` | MainApplication/FlipUIDConv_app_i.c:465-471 | Types the display line by hand if it is not empty |
| `UidApp.App.OnChooseFormat` | MainApplication/scenes/FlipUIDConv_scene_settings.c:37-42 | Choosing a format without refreshing is harmless, because the setting is on screen only while no UID is stored |
| `UidApp.App.Run` | MainApplication/scenes/FlipUIDConv_scene_read.c:96-192 | Over every run of scene events and scan steps the display line is empty or the stored UID in the current format, and the lines typed are those the history calls for |

## Left out

- Views, scenes other than the read scene, notifications, LEDs, sounds, tag-type texts, dialogs and allocation boilerplate: no protocol content.
- Radio, NFC, RFID, USB and serial drivers, the event loop and thread scheduling: they appear as free inputs and atomic steps, so races between the scan thread and the display thread are not modelled.
- HID keycodes and the shift modifier of the UID app's keyboard: they depend on constants of headers that are not part of this model; a typed line is a string.
- The lock timer of the U2F HID worker: the unlock flag is not in the wait mask, so when a turn of the worker sees it is a matter of timing and an input here; starts of the timer are observed.
- Channel ids are kept as their four bytes: they are only copied and compared.
- Hid.U2fHid.ParseRequest: takes the token's reply and the random channel id as inputs; `U2fDevice.TokenReply` shows that the token's answer is such a reply.
- ExpansionService: logging, locks of the message queue and its capacity; messages are handled one after the other.
- InfraredRemotes.InfraredRemote.BatchStart: the temporary name is one that was found unused; in the code a failing status call also ends the search, and the name could then be in use.
- InfraredRemotes.InfraredRemote.Run: what a failing batch may leave in the temporary file is not determined, only that every other file is kept.
- Infrared: `infrared_remote_create` empties index and file and writes a header, `infrared_remote_rename` and `infrared_remote_remove` pass a path to one storage call, `infrared_remote_reset` empties the index; none of them edits a list of records. The bytes of a signal are not interpreted.
- SignalFiles.Storage.RenameFile: a copy between different file systems, where the rename is not implemented, is left out; remote and temporary file lie side by side.
- CliVcp: the capacity of the internal event queue (the code halts when it overflows), enabling and disabling the service, and the shell behind the pipe; the pipe's callbacks are flags, set when data arrive or space is freed, that the event loop may handle at any later time.
- CliVcp.Vcp.Settle: its statement about the endpoint assumes that no waiting packet is empty; an empty one uses up an announcement without giving the shell anything to read.
- UartEcho: the idle and error lines echoed to the port, and the drawing of the screen.
- UidApp.App.OnChooseFormat: requires that no scan is running, since the settings scene is shown only while the read scene is not.
- U2fDer.EncodeInt: requires a non-zero integer; ECDSA yields no other.
- U2fToken.U2fData.Register: requires a certificate that fits the message buffer; loading and decrypting certificate and keys are not modelled, and whether the four files exist is an input.
- U2fFiles.CounterStore.CntWrite: writes the file or leaves it alone; a file cut short by a power failure in the middle of a write is not modelled.
- `subghz_history_remove_duplicates` keeps a pointer to an item and iterators across deletions, so its meaning depends on an array library that is not part of this model.
- `momentum_app.c`, `dolphin.c`, `desktop.c`, `usb_uart_bridge.c` and the example applications copy settings, do small arithmetic on them, or pump bytes between library threads.
