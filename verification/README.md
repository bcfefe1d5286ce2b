# Wasmbed protocol verification

A Dafny model of the Wasmbed device protocol: how firmware and gateway enroll a device, keep it
alive, and move WebAssembly modules onto it, together with the application controller and the
Linux edge client that drive or imitate the same protocol.

| file | what it models |
|---|---|
| `Prelude.dfy` | bytes, 32-bit words, optional values; cells written by a trace of operations |
| `Base64.dfy`, `KeyIndex.dfy` | the two base64 alphabets (sections 4 and 5 of RFC 4648) and the gateway's index of key spellings |
| `GatewayTables.dfy`, `Gateway.dfy`, `GatewayRuns.dfy`, `GatewaySenders.dfy`, `GatewayDevices.dfy` | the gateway's five tables, its TLS and HTTP callbacks, and safety over whole runs |
| `Possession.dfy` | who gets in: the signed transcript, replays, pairing, authorization, and the reply to every answer |
| `Messages.dfy`, `Cbor.dfy`, `Codec.dfy`, `WireForms.dfy` | the messages and their CBOR form (section 3 of RFC 8949), with the forms on the wire byte by byte |
| `Framing.dfy`, `FirmwareParse.dfy`, `FirmwareSend.dfy` | the firmware's frame readers, parse cursors and packet writers |
| `Enrollment.dfy`, `Handshake.dfy`, `Completion.dfy` | the firmware's enrollment client composed with the gateway, its pushed messages, and every way their bytes can arrive |
| `Wamr.dfy`, `Deploy.dfy` | the runtime's slot registry and the handling of deploy messages |
| `Heartbeat.dfy`, `TimerRuns.dfy` | wrapping timers, the gateway's monitor, the timed system of both, and runs of ticks |
| `Controller.dfy` | the reconcile state machine and the deployment loop |
| `StatusPatch.dfy`, `StatusCalls.dfy` | the device status builder against JSON Merge Patch (section 2 of RFC 7396), and what each of its calls stores |
| `EdgeClient.dfy`, `CpuSampler.dfy` | the edge client's event loop and the CPU sampler |

Code that changes things step by step is a class or a method with loops, proved against a
specification function on values. What the source promises is then proved about those functions
over whole runs: a run is a list of events (or calls, rounds, happenings) with every outcome of the
outside world as a parameter. The signature check, hash functions, clocks, random values, the
Kubernetes API, device listings and the WebAssembly runtime's answers are such parameters.

Several promises turn out to hold only under a condition. Each is stated as an equivalence, and
where it fails a lemma names a run or an input:

* A connection can be waiting and bound at once, exactly when it becomes ready after it was bound
  (`WaitingAndBoundIff`). The TLS server starts reading before it announces a connection, so this and
  an announcement after the close can happen (`LateReadyOverlaps`, `LateReadyStays`); with the
  announcement first it cannot (`WaitingBoundDisjoint`).
* A closing connection silences a newer connection of the same device (`CloseKeepsOthersIff`,
  `ReconnectLosesSender`), and one that closes before enrolling leaves its sender behind
  (`CloseLeavesNoSenderIff`, `ClosedSenderIff`, `StaleSenderRun`).
* The edge client hashes its transcript twice and is refused unless the digest is its own hash
  (`EdgeVerifiesIff`, `EdgeRefused`); the firmware's answer always verifies.
* The firmware's parse cursor returns what was encoded only for application ids of at most 63 bytes
  (`DeployParseIff`). A longer one is cut and its rest is read as the name (`LongIdParse`,
  `LongIdAnswered`). A full module fits the receive buffer only with ids of at most 40 bytes
  (`FullModuleFitsIff`).
* `recv_frame` can drop bytes that follow the current frame, unless the stream or the buffer ends
  with it (`LosesNothingIff`, `LosingPlan`, `CoalescedFramesLose`).
* An enrollment attempt that succeeds means that the gateway has bound the connection, if each send
  draws at most one message (`HandshakeAgreement`). The gateway can push a deployment to a connection
  that is still enrolling, and because the reader drops surplus bytes and starts again inside the
  module, an attempt can then succeed without any challenge (`Misread`, `MisreadRun`); `AgreementIff`
  says exactly when it cannot.
* An attempt completes under all arrivals in time if and only if nothing is pushed before the UUID
  (`SucceedsInTimeIff`, `FirmwareEnrollsIff`); `ExactArrivalsFail` names the arrivals that fail.
* The periodic status names the wrong application after a refused deployment (`MisreportIff`), and
  goes on after a failed runtime reset (`DeadReportIff`).
* A chain of builder calls differs from its patches applied one by one when it clears and sets the
  gateway over a stored connection time (`OnceIsInTurnIff`, `PlainChainIff`).
* A deployment's report is merged into what the server holds, so it is current exactly when no entry
  of another device is left over (`ReportIsCurrentIff`, `RestartKeepsOldEntries`,
  `TelemetryRestoresEntry`).
* The gateway leaves an absent error out of its patch, so a device's entry can say running beside an
  old error (`RunningWithErrorIff`, `FailureOutlivesTelemetry`).
* The controller never leaves PartiallyRunning (`PartialIsFinal`). The comment in `handle_running`
  says that a running application is not written to; `Application::status` always returns nothing,
  so it is written at each reconcile and its device report is erased (`RunningErasesReport`).
* The edge client announces modules of 16 MiB but ends the connection on a frame of more than 65536
  bytes (`OversizedEndsLoop`).

## Model

| member | source | states |
|---|---|---|
| Base64.DecodeIff | crates/wasmbed-gateway/src/http_api.rs:200-225 | Each strict decoder inverts exactly its own encoder: a text decodes to some bytes if and only if it is their encoding. |
| Base64.EnginesAgree | crates/wasmbed-gateway/src/http_api.rs:204-217 | A text that both alphabets accept means the same bytes to both. |
| WireForms.Alphabets | crates/wasmbed-gateway/src/http_api.rs:200-225 | The alphabets are A to Z, a to z, 0 to 9, then + and / or - and _. |
| WireForms.DigitsHoldBits | crates/wasmbed-gateway/src/http_api.rs:200-225 | Four digits hold the 24 bits of three bytes in order, and a short group is filled with zero bits. |
| WireForms.PaddedLengths | crates/wasmbed-gateway/src/http_api.rs:200-225 | The standard form is padded to a multiple of four characters, the URL-safe one is never padded. |
| KeyIndex.VariantsFromText | crates/wasmbed-gateway/src/http_api.rs:200-220 | The loop over both engines yields, without repetition, exactly the texts that denote the same key as the given text. |
| KeyIndex.VariantsAreSpellings | crates/wasmbed-gateway/src/http_api.rs:200-225 | The variants of a text are its equivalence class under "denotes the same key". |
| KeyIndex.VariantsDisjoint | crates/wasmbed-gateway/src/http_api.rs:200-225 | Variant sets of two texts meet if and only if the texts denote the same key. |
| KeyIndex.InsertLookup | crates/wasmbed-gateway/src/http_api.rs:294-305 | Filing a device under one spelling answers for every spelling of that key and changes no other key. |
| KeyIndex.FirstKnownBlind | crates/wasmbed-gateway/src/http_api.rs:330-351 | In an index that ignores spelling, trying several spellings of a key in any order finds what any one of them finds. |
| GatewayTables.HttpApiServer.RegisterDevice | crates/wasmbed-gateway/src/http_api.rs:294-327 | Files the key under all spellings and creates or refreshes the device entry, keeping its sender; the other tables stay. |
| GatewayTables.HttpApiServer.SetDeviceTlsSender | crates/wasmbed-gateway/src/http_api.rs:330-351 | Gives the sender to the device found under either encoding of the key, if it is known; nothing else changes. |
| GatewayTables.HttpApiServer.UpdateHeartbeat | crates/wasmbed-gateway/src/http_api.rs:366-372 | Refreshes the heartbeat of a known device only. |
| GatewayTables.HttpApiServer.StorePendingSender | crates/wasmbed-gateway/src/http_api.rs:375-378 | Parks the sender under its connection. |
| GatewayTables.HttpApiServer.ActivateDeviceSender | crates/wasmbed-gateway/src/http_api.rs:381-408 | Moves the parked sender to the device, binds the connection and files the key. |
| GatewayTables.HttpApiServer.IssueChallenge | crates/wasmbed-gateway/src/http_api.rs:411-425 | Replaces the connection's challenge by the new nonce, key and time. |
| GatewayTables.HttpApiServer.TakeChallenge | crates/wasmbed-gateway/src/http_api.rs:430-443 | Removes the challenge in every case and returns it only within 30 s of its issue. |
| GatewayTables.HttpApiServer.ResolveDeviceId | crates/wasmbed-gateway/src/http_api.rs:446-463 | The bound device of the connection, otherwise the device any spelling of the key leads to. |
| GatewayTables.HttpApiServer.RemoveConnection | crates/wasmbed-gateway/src/http_api.rs:466-480 | Drops the connection from all three per-connection tables and clears the sender of the device it was bound to. |
| GatewayTables.HttpApiServer.BindSolePending | crates/wasmbed-gateway/src/http_api.rs:747-780 | Binds a pending connection only if it is the only one, the device has no sender and its stored key is not empty. |
| GatewayTables.AdoptableIsSole | crates/wasmbed-gateway/src/http_api.rs:750-768 | A connection is adopted by a deployment if and only if it is the sole pending one and the device is unattached with a stored key. |
| Gateway.FindDevice | crates/wasmbed-k8s-resource/src/device_client.rs:13-26 | Returns the first listed device whose stored text is the URL-safe spelling of the key, and nothing only if there is none. |
| Gateway.Callbacks.Connect | crates/wasmbed-gateway/src/main.rs:71-177 | Registers a known device whose status could be patched; decides authorization for unknown and anonymous clients. |
| Gateway.Callbacks.ConnectionReady | crates/wasmbed-gateway/src/main.rs:218-233 | Parks the sender and, for a certificate, wires it to the device of that key. |
| Gateway.Callbacks.CompleteEnrollment | crates/wasmbed-gateway/src/main.rs:864-966 | Either registers and binds the owner of the key and answers with a UUID, or rejects with the reason and changes nothing. |
| Gateway.Callbacks.Message | crates/wasmbed-gateway/src/main.rs:235-370 | The new tables and the replies for each message, including all three rejections around a challenge. |
| GatewayRuns.CompletionIff | crates/wasmbed-gateway/src/main.rs:287-363 | Over every run: an event completes an enrollment of a key if and only if an earlier accepted announcement of that key on the connection is the latest, undisturbed, at most 30 s old, and the signature verifies over its nonce and key. |
| GatewayRuns.ChallengeSingleUse | crates/wasmbed-gateway/src/http_api.rs:427-443 | Two completions of a run never rest on the same announcement: no challenge is consumed twice. |
| GatewayRuns.EnrolledKeyIsTransportKey | crates/wasmbed-gateway/src/main.rs:287-319 | The key of a completed enrollment is the connection's TLS key whenever that is not empty, and it is not empty when client certificates are required. |
| GatewayRuns.BindingReasons | crates/wasmbed-gateway/src/http_api.rs:381-408 | An event binds a connection to a device exactly by a justified enrollment of the device's key or by the deployment shortcut. |
| GatewayRuns.BoundIff | crates/wasmbed-gateway/src/http_api.rs:381-480 | Over every run: a connection is bound to a device if and only if such an event bound it and none undid it since. |
| GatewayRuns.WaitingIff | crates/wasmbed-gateway/src/http_api.rs:375-408 | Over every run: a connection is pending if and only if it was announced ready and not bound or dropped since, whether or not it had closed before. |
| GatewayRuns.WaitingAndBoundIff | crates/wasmbed-gateway/src/http_api.rs:375-408 | Over every run: a connection is pending and bound at once if and only if it was announced ready after it was bound and did not close. |
| GatewayRuns.WaitingBoundDisjoint | crates/wasmbed-gateway/src/http_api.rs:375-480 | In every run in which a connection is announced ready before any other message of it, the pending and bound tables are disjoint. |
| GatewayRuns.LateReadyOverlaps | crates/wasmbed-tls-utils/src/lib.rs:1065-1123 | A run in which a connection enrolls before it is announced ready ends with it pending and bound at once. |
| GatewayRuns.LateReadyStays | crates/wasmbed-tls-utils/src/lib.rs:1065-1123 | A run in which the announcement follows the close leaves the closed connection pending. |
| GatewayRuns.DisconnectedIsForgotten | crates/wasmbed-gateway/src/http_api.rs:466-480 | After its disconnect, a connection not heard of again is in none of the three per-connection tables. |
| GatewayRuns.AlwaysWired | crates/wasmbed-gateway/src/http_api.rs:294-480 | Over every run: a device is flagged connected exactly when it has a sender, and the index answers alike for all spellings of a key. |
| GatewayRuns.RunOwned | crates/wasmbed-gateway/src/http_api.rs:294-408 | While keys do not change hands, every text in the index leads to the owner of its key. |
| GatewayRuns.FiledStays | crates/wasmbed-gateway/src/http_api.rs:294-408 | Over every run: a text once filed in the index stays filed. |
| GatewayRuns.FastPathAgrees | crates/wasmbed-gateway/src/http_api.rs:446-463 | For a connection last bound by enrollment, the connection table and the key index resolve to the same device under either encoding. |
| GatewaySenders.IndexIff | crates/wasmbed-gateway/src/http_api.rs:294-408 | Over every run: a text leads to a device if and only if the last event that filed its key, under whatever spelling, filed that device. |
| GatewaySenders.RegisteredIsFound | crates/wasmbed-gateway/src/http_api.rs:330-351 | Over every run: a device once registered, and last filed for a key, gets the sender of every connection that becomes ready with that key. |
| GatewaySenders.SenderIff | crates/wasmbed-gateway/src/http_api.rs:330-480 | Over every run: a device holds a connection's sender if and only if an event wired it, by certificate, enrollment or adoption, and none rewired the device or closed a connection bound to it since. |
| GatewaySenders.ClosedSenderIff | crates/wasmbed-gateway/src/http_api.rs:466-480 | Over every run: a closed connection's sender stays on a device if and only if the device had it, was not the one the connection was bound to, and was not rewired since. |
| GatewayRuns.CloseLeavesNoSenderIff | crates/wasmbed-gateway/src/main.rs:179-216 | When a connection closes, no device keeps its sender if and only if every device that had it was the one the connection was bound to. |
| GatewayRuns.CloseKeepsOthersIff | crates/wasmbed-gateway/src/main.rs:179-216 | Closing a connection keeps every other connection's sender if and only if the device it was bound to has none from another connection. |
| GatewayRuns.StaleSenderRun | crates/wasmbed-gateway/src/http_api.rs:330-351 | A run in which a connection wired by certificate closes before enrolling and its sender stays on the device. |
| GatewayRuns.ReconnectLosesSender | crates/wasmbed-gateway/src/http_api.rs:466-480 | A run in which the close of an old connection clears the sender of the new one. |
| GatewayDevices.KeyTextIff | crates/wasmbed-gateway/src/http_api.rs:294-327 | Over every run: the key text of a device is the one it was last registered or enrolled under. |
| GatewayDevices.LastHeartbeatIff | crates/wasmbed-gateway/src/http_api.rs:366-372 | Over every run: a device's last heartbeat is the time of its last registration, enrollment or heartbeat message, which reaches the device its connection is bound to, or else the one its certificate's key leads to. |
| GatewayDevices.ConnectedSinceIff | crates/wasmbed-gateway/src/http_api.rs:330-351 | Over every run: its connection time is that of the last event that gave it a sender, or else of its first registration. |
| Possession.TranscriptLayout | crates/wasmbed-gateway/src/main.rs:969-988 | The signed bytes are the 14 bytes of the context, the nonce and the key. |
| Possession.TranscriptIff | crates/wasmbed-gateway/src/main.rs:982-988 | For nonces of one length two transcripts are equal if and only if nonce and key are. |
| Possession.AnswerVerifiesIff | crates/wasmbed-gateway/src/main.rs:982-988 | Unless their transcripts collide, the firmware's answer to one nonce verifies for another if and only if they are the same. |
| Possession.AnswerCompletesIff | crates/wasmbed-gateway/src/main.rs:320-362 | Over every run: the firmware's answer to a nonce completes an enrollment if and only if the challenge outstanding on the connection, at most 30 s old, was issued for its key with that nonce. |
| Possession.ReplayRefused | crates/wasmbed-gateway/src/main.rs:320-362 | Over every run in which no nonce is drawn twice: an answer that completed an enrollment never completes another, on any connection. |
| Possession.AnnouncementReply | crates/wasmbed-gateway/src/main.rs:287-319 | An announcement draws a challenge, or one of two rejections, exactly under these conditions on transport key and settings. |
| Possession.RefusalIff | crates/wasmbed-gateway/src/main.rs:320-350 | Over every run: an answer is refused for want of a challenge if and only if none is outstanding, and for its signature if and only if that does not verify over the outstanding nonce and key. |
| Possession.AdmissionIff | crates/wasmbed-gateway/src/main.rs:864-966 | Over every run: which proven answer is rejected with which text, and that it binds the connection to a device and yields the UUID if and only if that is the first listed with the key, or was created for an unlisted key while pairing is on. |
| Possession.PairingOff | crates/wasmbed-gateway/src/main.rs:908-919 | Over every run: while pairing is off an enrollment binds only to a listed device, and a proven unlisted key is told "Pairing mode disabled". |
| Possession.AuthorizedIff | crates/wasmbed-gateway/src/main.rs:71-177 | A client is authorized if and only if the listing succeeds and its key is listed and the patch goes through, or is unlisted while pairing is on, or it has none and none is required. |
| Possession.AuthorizedRegisters | crates/wasmbed-gateway/src/main.rs:71-177 | Authorization registers the first listed device with the key, and leaves the tables alone otherwise. |
| Possession.PlainReplies | crates/wasmbed-gateway/src/main.rs:255-370 | Heartbeats, requests and acknowledgments draw one fixed reply each; reports draw none and leave the tables alone. |
| Cbor.HeadReads | crates/wasmbed-protocol/src/cbor.rs:58-120 | A head written in preferred form is read back with its number and the rest of the input. |
| Cbor.StrReads | crates/wasmbed-protocol/src/cbor.rs:58-120 | A byte or text string is read back with its content and the rest of the input. |
| WireForms.HeadForm | crates/wasmbed-protocol/src/cbor.rs:58-121 | A written head has its major type in the upper three bits and its value in the lower five or in the least of one, two, four or eight bytes, big-endian. |
| WireForms.HeadReadIff | crates/wasmbed-protocol/src/cbor.rs:122-250 | The reader takes exactly the heads of its major type, in any of the five lengths, and yields their value and the rest. |
| Codec.ClientRoundTrip | crates/wasmbed-protocol/src/cbor.rs:58-253 | Decoding an encoded client message returns it, for every message. |
| Codec.ServerRoundTrip | crates/wasmbed-protocol/src/cbor.rs:255-449 | Decoding an encoded server message returns it, for every message. |
| Codec.ServerLead | crates/wasmbed-protocol/src/cbor.rs:255-314 | The first two bytes of an encoded server message tell its kind, which is what the firmware tests. |
| WireForms.ServerStarts | crates/wasmbed-protocol/src/cbor.rs:255-315 | A server message of each kind, and no other, starts with its two bytes. |
| WireForms.ClientStarts | crates/wasmbed-protocol/src/cbor.rs:58-121 | A client message of each kind, and no other, starts with its two bytes. |
| WireForms.ServerDecodedAs | crates/wasmbed-protocol/src/cbor.rs:316-430 | Whatever bytes decode to a server message carry its array length and tag, and a UUID has 16 bytes. |
| WireForms.ClientDecodedAs | crates/wasmbed-protocol/src/cbor.rs:122-250 | Whatever bytes decode to a client message carry its array length and tag, and a status is at most 4. |
| WireForms.UnknownStatus | crates/wasmbed-protocol/src/cbor.rs:145-153 | A status number above 4 is read as Unknown. |
| WireForms.MetricsOrder | crates/wasmbed-protocol/src/cbor.rs:80-92 | Memory, CPU as a 32-bit float, uptime, calls. |
| WireForms.DeviceInfoOrder | crates/wasmbed-protocol/src/cbor.rs:109-116 | Memory, architecture, features, largest application. |
| WireForms.ConfigOrder | crates/wasmbed-protocol/src/cbor.rs:280-297 | Memory limit, CPU time limit, environment as a map, arguments as an array. |
| Framing.Socket.NetworkReceive | zephyr-app/src/network_handler.c:440-460 | Delivers as much of the stream as arrived and fits, possibly nothing, or reports an error and delivers nothing. |
| Framing.NetworkReceiveFramed | zephyr-app/src/network_handler.c:477-522 | For any chunking: succeeds exactly when a complete frame that fits is at the front and no receive breaks, delivers exactly it and leaves the rest of the stream. |
| Framing.ReceiveAll | zephyr-app/src/network_handler.c:477-522 | Repeated receives over concatenated frames yield the payloads in order, and all of them unless a receive breaks. |
| Framing.RecvFrame | zephyr-app/src/wasmbed_protocol.c:100-153 | Frame, clock and rest of the stream are those the plan of arrivals determines; fails only on an error, a timeout or an oversized frame; terminates by the time left. |
| Framing.InTimeRead | zephyr-app/src/wasmbed_protocol.c:100-153 | A frame whose bytes are handed over without a break and before the deadline is delivered, whatever else arrives with it, and the plan goes on behind it. |
| Framing.FrameReadIff | zephyr-app/src/wasmbed_protocol.c:100-153 | A frame that is there and fits is delivered if and only if no receive breaks and each that leaves bytes missing ends before the deadline, with 50 ms between receives and none at the step from header to payload. |
| Framing.LosesNothingIff | zephyr-app/src/wasmbed_protocol.c:100-153 | No plan of arrivals makes the reader drop a byte of what follows a frame if and only if the stream ends with the frame or the buffer does. |
| Framing.LosingPlan | zephyr-app/src/wasmbed_protocol.c:109-137 | One receive that hands over one byte more than the frame loses it. |
| Framing.CoalescedFramesLose | zephyr-app/src/wasmbed_protocol.c:109-151 | Of two frames that arrive together the second never reaches the reader. |
| FirmwareParse.HeadsAgree | zephyr-app/src/wasmbed_protocol.c:648-720 | The cursors accept exactly the heads of the reference decoder with at most a two-byte length, and read the same length. |
| FirmwareParse.DeployParseIff | zephyr-app/src/wasmbed_protocol.c:648-720 | The cursor chain recovers id, hash and module of an encoded deployment if and only if the id has at most 63 bytes, name and module fewer than 65536, and the hash 32. |
| FirmwareParse.ShortIdParse | zephyr-app/src/wasmbed_protocol.c:648-720 | For an id of at most 63 bytes: which field the parse ends at, by the sizes of name, digest and module. |
| FirmwareParse.LongIdParse | zephyr-app/src/wasmbed_protocol.c:666-669 | A longer id is cut to 63 bytes and its rest is read as the name, which ends the parse unless the next byte is the head of a text. |
| FirmwareParse.FullModuleFitsIff | zephyr-app/src/wasmbed_protocol.c:957-984 | A 16384-byte module without configuration, named by its id, fits the receive buffer if and only if the id has at most 40 bytes. |
| FirmwareSend.SendDeployAck | zephyr-app/src/wasmbed_protocol.c:825-862 | The bytes written stay in the buffer and are the frame of the acknowledgment, with id and error cut at their first zero and to 63 bytes. |
| FirmwareSend.SendApplicationStatus | zephyr-app/src/wasmbed_protocol.c:866-891 | The bytes written are the frame of the status message, at most 74, and exactly 74 if and only if the id has at least 63 bytes before its first zero. |
| FirmwareSend.PacketDecodes | zephyr-app/src/wasmbed_protocol.c:825-891 | The big-endian prefix equals the payload length and the payload decodes to the message. |
| FirmwareSend.ShownIff | zephyr-app/src/wasmbed_protocol.c:824-892 | The text sent is the longest prefix of less than 64 bytes without a zero. |
| Enrollment.DoEnrollment | zephyr-app/src/wasmbed_protocol.c:167-320 | The client, reading through the 64-byte frame reader, sends exactly the packets, and ends with exactly the verdict, that stream and arrivals determine. |
| Enrollment.EnrollsIff | zephyr-app/src/wasmbed_protocol.c:167-320 | An attempt succeeds if and only if the acceptance comes, the key has 1 to 255 bytes, the UUID comes directly or after a challenge the device can answer, and the three or four sends succeed. |
| Enrollment.SentIff | zephyr-app/src/wasmbed_protocol.c:167-320 | Whatever is received, the packets sent are the first of one of two scripts, and the acknowledgment goes out if and only if the attempt succeeds. |
| Enrollment.UuidMeansBound | crates/wasmbed-gateway/src/main.rs:864-966 | The gateway hands out a UUID only in the step that binds the connection. |
| Handshake.SomePlanSucceedsIff | zephyr-app/src/wasmbed_protocol.c:100-153 | Some arrivals make an attempt succeed if and only if three byte counts, each at most the buffer, cut a successful conversation out of the lines. |
| Handshake.AgreementIff | zephyr-app/src/wasmbed_protocol.c:167-320 | Over every run of events and pushed messages: success means agreement under all arrivals if and only if the gateway bound the connection, or no three byte counts make the reader see an enrollment in what was sent. |
| Handshake.HandshakeAgreement | zephyr-app/src/wasmbed_protocol.c:167-320 | Over every run and under all arrivals: if each send draws at most one message and the attempt succeeds, the gateway has bound that connection, by a justified enrollment, to the device the announced key belongs to. |
| Handshake.Misread | zephyr-app/src/wasmbed_protocol.c:109-151 | With a suitable deployment pushed right behind the acceptance, reads of 64 and 6 bytes make every device's attempt succeed without a challenge. |
| Handshake.MisreadRun | crates/wasmbed-gateway/src/http_api.rs:588-607 | A run in which a deployment is pushed before the announcement: some arrivals make the attempt succeed although the gateway never binds the connection. |
| Enrollment.HandshakeCompletes | zephyr-app/src/wasmbed_protocol.c:167-320 | Over every run, with any other events between: when the packets of a device with an accepted key and a verifying, timely answer reach the gateway, its replies make the firmware succeed and the connection is bound to the device. |
| Completion.RepliesDelivered | zephyr-app/src/wasmbed_protocol.c:167-320 | When each send draws exactly its reply and the last may be followed by anything, the 64-byte reader delivers the three replies whole under all arrivals that hand over 6, 40 and 23 bytes without a break before their deadlines. |
| Completion.LongReplyLost | zephyr-app/src/wasmbed_protocol.c:167-320 | A reply of more than 64 bytes is never delivered. |
| Completion.ExactArrivalsFail | zephyr-app/src/wasmbed_protocol.c:167-320 | Whatever is pushed before the UUID, in whichever of the three places, arrivals of one reply each make the attempt fail. |
| Completion.SucceedsInTimeIff | zephyr-app/src/wasmbed_protocol.c:167-320 | An attempt succeeds under all arrivals in time if and only if nothing is pushed before the UUID; what is pushed after it does not matter. |
| Enrollment.ShortReplies | zephyr-app/src/wasmbed_protocol.c:167-320 | The gateway's enrollment replies have 6, 40 and 23 bytes and so fit the firmware's buffer. |
| Enrollment.FirmwareVerifies | zephyr-app/src/wasmbed_protocol.c:476-538 | The firmware's one-hash signature is the one the gateway verifies. |
| Enrollment.EdgeVerifiesIff | crates/wasmbed-edge-client/src/identity.rs:66-78 | The edge client's two-hash signature verifies if and only if the transcript's digest is its own hash. |
| Enrollment.EdgeRefused | crates/wasmbed-edge-client/src/identity.rs:66-78 | With any hash under which no digest is its own hash the edge client is refused. |
| Completion.EnrollsInTimeIff | zephyr-app/src/wasmbed_protocol.c:167-320 | Over every run: when the packets of a device with an accepted key and a verifying, timely answer reach the gateway, its attempt succeeds under all arrivals in time if and only if no act before the UUID pushes a message on its connection. |
| Completion.FirmwareEnrollsIff | crates/wasmbed-gateway/src/main.rs:225-231 | The same for the firmware of a listed device with its own key, whatever the hash; in either case the gateway has bound the connection to that device. |
| Wamr.SameIdIff | zephyr-app/src/wamr_integration.c:109-159 | Two issues of a wrapping counter carry the same id if and only if a multiple of 2^32 issues lies between them. |
| Wamr.SlotIdsDistinct | zephyr-app/src/wamr_integration.c:109-261 | Ids in use are distinct until the counter has wrapped. |
| Wamr.RunSound | zephyr-app/src/wamr_integration.c:72-514 | Over any calls: live handles are exactly those of in-use slots, each held once; every live instance's module is live; slots carry distinct issued ids. |
| Wamr.IssuesGrow | zephyr-app/src/wamr_integration.c:72-514 | Issued ids are never taken back, cleanups included. |
| Wamr.ReissueIff | zephyr-app/src/wamr_integration.c:109-159 | Two successful loads of a run return the same id if and only if a multiple of 2^32 loads succeeded between, across cleanup and re-init. |
| Wamr.InstanceReissueIff | zephyr-app/src/wamr_integration.c:162-261 | The same for instance ids and successful instantiations. |
| Wamr.LoadIff | zephyr-app/src/wamr_integration.c:109-160 | A load succeeds if and only if the runtime is up, the module is not empty, one of 16 slots is free and the runtime accepts it; then the first free slot holds it under the next id. |
| Wamr.InstantiateIff | zephyr-app/src/wamr_integration.c:162-262 | The same for an instantiation of a loaded module. |
| Wamr.UnloadLeavesNothing | zephyr-app/src/wamr_integration.c:444-513 | Over every run: after an unload or a cleanup nothing is in use or live, an unload wipes the handles, and only a cleanup shuts down. |
| Wamr.Registry.WamrInit | zephyr-app/src/wamr_integration.c:72-106 | Does nothing when initialized; otherwise frees all slots and keeps the id counters, or fails and changes nothing. |
| Wamr.Registry.WamrLoadModule | zephyr-app/src/wamr_integration.c:109-159 | Each exit exactly in its case; on success the first free slot holds the new handle under the next id. |
| Wamr.Registry.WamrInstantiate | zephyr-app/src/wamr_integration.c:162-261 | Each exit exactly in its case; on success the first free slot holds instance and environment made from the named module. |
| Wamr.Registry.MakeInstance | zephyr-app/src/wamr_integration.c:219-251 | The runtime makes instance and environment one after the other; when the second fails the first is taken back, so that no live handle is left outside the slots. |
| Wamr.Registry.WamrUnloadAll | zephyr-app/src/wamr_integration.c:444-475 | Releases every environment, then its instance, then every module, none while something made from it is live, and frees all slots. |
| Wamr.Registry.WamrCleanup | zephyr-app/src/wamr_integration.c:478-514 | Releases in the same order and leaves the registry uninitialized with its counters kept. |
| Deploy.Board.HandleDeployApplication | zephyr-app/src/wasmbed_protocol.c:757-822 | The new state for each verdict; the search for a free slot never fails; after success the current instance id resolves to an in-use instance. |
| Deploy.Board.HandleMessage | zephyr-app/src/wasmbed_protocol.c:894-952 | Keeps at most the first slot of each kind in use, moves the application state by one delivery, and sends exactly the acknowledgment of its verdict, with the id up to its first zero. |
| Deploy.Board.RecvAndHandle | zephyr-app/src/wasmbed_protocol.c:957-984 | For any stream and any arrivals: one poll, read and dispatch ends the connection exactly when the poll fails or no frame with any bytes comes in time, and otherwise does what the delivered frame demands. |
| Deploy.DeployInIff | zephyr-app/src/wasmbed_protocol.c:894-952 | The frame of a server message is taken as a deployment if and only if it is one. |
| Deploy.DeployReadIff | zephyr-app/src/wasmbed_protocol.c:894-952 | Id, digest and module are read back whole if and only if the id has at most 63 bytes, the digest 32, name and module less than 65536. |
| Deploy.DeliveredReaction | zephyr-app/src/wasmbed_protocol.c:957-984 | Any message at the front of any stream that fits 16512 bytes and comes within 5 s draws the reaction of its frame. |
| Deploy.DeploymentAnswered | zephyr-app/src/wasmbed_protocol.c:894-952 | End to end: a deployment is acknowledged as a success, and runs, if and only if its digest has 32 bytes and matches, the module has 1 to 16384 bytes and the runtime takes it; otherwise the acknowledgment the gateway decodes says why. |
| Deploy.LongIdAnswered | zephyr-app/src/wasmbed_protocol.c:894-952 | An id of 64 bytes or more is acknowledged by its first 63 bytes and, unless the next byte is the head of a text, refused. |
| Deploy.OthersIgnored | zephyr-app/src/wasmbed_protocol.c:894-952 | All other server messages change nothing and are not acknowledged. |
| Deploy.SuccessAckIff | zephyr-app/src/wasmbed_protocol.c:915-946 | A success acknowledgment if and only if the message is complete, the module has 1 to 16384 bytes, its digest matches and the runtime accepts it. |
| Deploy.AppTrace | zephyr-app/src/wasmbed_protocol.c:757-822 | Over any deliveries: which application runs, which id the buffer holds and whether the instance is live, read off the deliveries. |
| Deploy.MisreportIff | zephyr-app/src/wasmbed_protocol.c:1072-1077 | The reported id differs from the running application's if and only if a delivery after the last start, which started nothing, carried the last readable id and that one reads differently. |
| Deploy.DeadReportIff | zephyr-app/src/wasmbed_protocol.c:786-820 | The board reports an application whose instance is gone if and only if a runtime reset failed after the last start. |
| Deploy.WrongReports | zephyr-app/src/wasmbed_protocol.c:917-946 | Two deliveries after which the report is wrong, in either way. |
| Heartbeat.Ticker.Tick | zephyr-app/src/wasmbed_protocol.c:1044-1078 | The new timers and the packets sent, which are the frames of a heartbeat and a status, for every outcome of the line. |
| Heartbeat.Elapsed | zephyr-app/src/wasmbed_protocol.c:1060-1062 | 32-bit subtraction of two clock readings is the true time between them, short of a full turn. |
| Heartbeat.RetriesAtOnce | zephyr-app/src/wasmbed_protocol.c:1064-1069 | After a failed heartbeat the next tick tries to reconnect if and only if it comes within a full clock turn less 30000 ms. |
| Heartbeat.CheckHeartbeatTimeouts | crates/wasmbed-gateway/src/main.rs:604-647 | The loop marks exactly the overdue devices, in listing order, and nothing when the listing fails. |
| Heartbeat.OverdueIff | crates/wasmbed-gateway/src/main.rs:624-633 | A device is marked if and only if it is Connected and its heartbeat is at least timeout plus one seconds old, in milliseconds. |
| Heartbeat.BeatSpacing | zephyr-app/src/wasmbed_protocol.c:1044-1078 | Over every timely run: successive heartbeats are at least 25000 and less than 25000 + d ms apart, across clock wrap. |
| Heartbeat.WrapHidesBeat | zephyr-app/src/wasmbed_protocol.c:1060-1062 | With ticks one clock turn less 24999 ms apart, a due heartbeat is not sent. |
| Heartbeat.NeverUnreachableIff | crates/wasmbed-gateway/src/main.rs:604-647 | With ticks at most d ms apart and delivery within l ms, no run ever marks the device Unreachable, if and only if 25000 + d + l is at most 91000. |
| TimerRuns.AttemptSpacing | zephyr-app/src/wasmbed_protocol.c:1048-1058 | Over every run of ticks while no attempt succeeds: attempts are at least 30000 and less than 30000 + d ms apart, across the wrap, and none is overdue. |
| TimerRuns.ReportSpacing | zephyr-app/src/wasmbed_protocol.c:1072-1077 | Over every run of ticks with an application deployed and heartbeats going out, the same holds of status reports. |
| TimerRuns.ReconnectedIff | zephyr-app/src/wasmbed_protocol.c:1048-1058 | A disconnected device whose heartbeats then go out is connected if and only if some due attempt succeeded. |
| TimerRuns.TickSends | zephyr-app/src/wasmbed_protocol.c:1044-1078 | A tick sends a heartbeat and the status Running of the buffered id exactly when each is due and goes out. |
| TimerRuns.StoredBeatIff | crates/wasmbed-gateway/src/main.rs:255-278 | Over every run: the stored heartbeat is the time of the last delivery. |
| TimerRuns.UnreachableIff | crates/wasmbed-gateway/src/main.rs:255-278 | Over every run, timely or not: a device is unreachable if and only if a monitor pass found its last heartbeat 91 s old and none has been delivered since; otherwise it is connected. |
| Controller.FindTargetDevices | crates/wasmbed-application-controller/src/main.rs:543-562 | All listed devices, or those named, in listing order; an error exactly when the listing fails. |
| Controller.MatchingIff | crates/wasmbed-application-controller/src/main.rs:543-562 | The targets keep the multiplicity of every matching device and contain no other. |
| Controller.MatchingInOrder | crates/wasmbed-application-controller/src/main.rs:543-562 | The targets keep the order of the listing. |
| Controller.DeployToAll | crates/wasmbed-application-controller/src/main.rs:274-398 | The loop's map, counters, phase and error are those of the per-target results. |
| Controller.EntriesCount | crates/wasmbed-application-controller/src/main.rs:285-357 | There is one entry per target if and only if the targets' names are distinct. |
| Controller.AggregateIff | crates/wasmbed-application-controller/src/main.rs:359-391 | Running plus failed is the total; Running if and only if all run, PartiallyRunning if and only if some but not all, Failed if and only if none; no error if and only if Running. |
| Controller.AggregateCounts | crates/wasmbed-application-controller/src/main.rs:359-391 | Deployed and running count the targets that are connected and accept the module, failed and the error count all others, and none is stopped. |
| Controller.EntryTexts | crates/wasmbed-application-controller/src/main.rs:285-357 | A target's entry is running without an error if and only if it is connected and accepts; otherwise it has failed, with the text of the reason. |
| Controller.AggregateEntries | crates/wasmbed-application-controller/src/main.rs:285-357 | The entries name exactly the targets, one for each if and only if names are distinct, and then each is its target's result. |
| Controller.ApplicationController.UpdateApplicationStatus | crates/wasmbed-application-controller/src/main.rs:632-659 | Caches the phase exactly when one of the two patches succeeds, and touches no other application. |
| Controller.ApplicationController.HandleCreating | crates/wasmbed-application-controller/src/main.rs:223-272 | Caches Deploying before the patch, so that a lost patch keeps it. |
| Controller.ApplicationController.HandleDeploying | crates/wasmbed-application-controller/src/main.rs:274-403 | Publishes the aggregate of the targets, or nothing without targets. |
| Controller.ApplicationController.HandleFailed | crates/wasmbed-application-controller/src/main.rs:448-502 | Moves back to Deploying exactly when some target is connected. |
| Controller.ApplicationController.Reconcile | crates/wasmbed-application-controller/src/main.rs:95-156 | One reconcile does what the cached phase dictates and touches no other application. |
| Controller.PhaseSafety | crates/wasmbed-application-controller/src/main.rs:223-541 | For every dispatched phase, cell and outcome, each phase written is an allowed transition from the one before it. |
| Controller.Publishes | crates/wasmbed-application-controller/src/main.rs:223-541 | What a landed write of each handler leaves at the server and in the cache. |
| Controller.LandsIff | crates/wasmbed-application-controller/src/main.rs:632-659 | Which of the three ends of a write change the cache and the stored status. |
| Controller.PatchStores | crates/wasmbed-k8s-resource/src/application_client.rs:71-119 | The gateway's patch sets phase and error, leaves the statistics, and takes away no entry. |
| Controller.NeverBackToCreating | crates/wasmbed-application-controller/src/main.rs:115-125 | Past Creating, a reconcile leads back to Creating if and only if Deleting was dispatched. |
| Controller.OnlyWorkingPhases | crates/wasmbed-application-controller/src/main.rs:95-156 | From an empty cache, over every run and whatever the server held, only Deploying, Running, PartiallyRunning and Failed are cached. |
| Controller.PartialIsFinal | crates/wasmbed-application-controller/src/main.rs:443-446 | Over every run the controller leaves an application in PartiallyRunning alone: only patches of the gateway have an effect. |
| Controller.DeployingRunsIff | crates/wasmbed-application-controller/src/main.rs:274-403 | A deploying application ends Running if and only if there are targets, all are connected and accept the module, and the write is not lost. |
| Controller.RunningInTwoIff | crates/wasmbed-application-controller/src/main.rs:223-403 | From nothing cached, Creating or Failed, two reconciles end Running if and only if the first finds targets (a connected one and a kept write after a failure) and the second delivers to all, whatever the gateway patches between. |
| Controller.EntryIff | crates/wasmbed-k8s-resource/src/application_client.rs:71-119 | Over every run of reconciles and gateway patches: the server holds a device's entry if and only if it was stored before, deployed or patched in, and no later write removed it. |
| Controller.ReportIsCurrent | crates/wasmbed-application-controller/src/main.rs:376-398 | It does so whenever it directly follows a fresh start whose write landed. |
| Controller.ReportIsCurrentIff | crates/wasmbed-application-controller/src/main.rs:376-398 | Over every such run, from any stored status: a deployment leaves exactly its own targets' report if and only if no entry of another device is left over. |
| Controller.RestartKeepsOldEntries | crates/wasmbed-application-controller/src/main.rs:237-264 | A restarted controller whose first write is lost merges its report into the old one. |
| Controller.TelemetryRestoresEntry | crates/wasmbed-gateway/src/main.rs:381-405 | A patch of the gateway between start and deployment puts a former target's entry back. |
| Controller.RunningWithErrorIff | crates/wasmbed-k8s-resource/src/application_client.rs:53-119 | Over every run of reconciles and gateway patches: the server shows a device as running with an error if and only if running is the last status written for it and that error the last one written and not removed; a patch without an error does not remove one. |
| Controller.FailureOutlivesTelemetry | crates/wasmbed-gateway/src/main.rs:381-405 | Telemetry without an error after a failed deployment leaves the old error in an entry that says running. |
| Controller.RunningErasesReport | crates/wasmbed-application-controller/src/main.rs:405-430 | A reconcile of a running application always writes, and erases device entries and statistics. |
| Controller.Independent | crates/wasmbed-application-controller/src/main.rs:95-156 | Over any interleaving of reconciles and gateway patches each application fares as if it were alone. |
| StatusPatch.BuildPatch | crates/wasmbed-k8s-resource/src/device_client.rs:110-153 | Filling the map step by step yields the patch with exactly the edited fields under status. |
| StatusPatch.PatchIsFieldwise | crates/wasmbed-k8s-resource/src/device_client.rs:110-153 | The merge edits each status field by itself and leaves the rest of the resource alone. |
| StatusPatch.FieldMeaning | crates/wasmbed-k8s-resource/src/device_client.rs:29-37 | An unset field keeps the stored value, a cleared one is removed, a set one is stored. |
| StatusPatch.GatewayMeaning | crates/wasmbed-types/src/k8s.rs:10-18 | The same for the gateway, except that a set reference keeps stored keys it does not write. |
| StatusCalls.SetPhaseStores | crates/wasmbed-k8s-resource/src/device_client.rs:40-43 | The text of the phase; all else is as before. |
| StatusCalls.SetGatewayStores | crates/wasmbed-k8s-resource/src/device_client.rs:66-69 | A reference merged into the stored one, or none; all else is as before. |
| StatusCalls.SetConnectedSinceStores | crates/wasmbed-k8s-resource/src/device_client.rs:71-74 | The time, or none; all else is as before. |
| StatusCalls.SetLastHeartbeatStores | crates/wasmbed-k8s-resource/src/device_client.rs:76-79 | The time, or none; all else is as before. |
| StatusCalls.MarkConnectedStores | crates/wasmbed-k8s-resource/src/device_client.rs:81-85 | Phase "Connected", the gateway and the connection time; the heartbeat is as before. |
| StatusCalls.MarkEnrollingStores | crates/wasmbed-k8s-resource/src/device_client.rs:87-89 | Phase "Enrolling"; all else is as before. |
| StatusCalls.MarkEnrolledStores | crates/wasmbed-k8s-resource/src/device_client.rs:91-93 | Phase "Enrolled"; all else is as before. |
| StatusCalls.MarkDisconnectedStores | crates/wasmbed-k8s-resource/src/device_client.rs:95-99 | Phase "Disconnected", no gateway and no connection time; the heartbeat is as before. |
| StatusCalls.MarkUnreachableStores | crates/wasmbed-k8s-resource/src/device_client.rs:101-104 | Phase "Unreachable" and no gateway; connection time and heartbeat are as before. |
| StatusCalls.UpdateHeartbeatStores | crates/wasmbed-k8s-resource/src/device_client.rs:106-108 | The heartbeat; all else is as before. |
| StatusCalls.LastPhase | crates/wasmbed-k8s-resource/src/device_client.rs:39-108 | The phase a chain of calls stores is the text of the last call that sets one, or the stored one. |
| StatusCalls.LastSince | crates/wasmbed-k8s-resource/src/device_client.rs:39-108 | The same for the connection time, which two calls clear. |
| StatusCalls.LastBeat | crates/wasmbed-k8s-resource/src/device_client.rs:39-108 | The same for the last heartbeat. |
| StatusPatch.OnceIsInTurnIff | crates/wasmbed-k8s-resource/src/device_client.rs:39-153 | A chain of builder calls applied as one patch equals one patch per call, except exactly when its last gateway update sets a reference and the chain either cleared stored keys unknown to references or changed the connection time that the reference leaves out. |
| StatusPatch.PlainChainIff | crates/wasmbed-k8s-resource/src/device_client.rs:81-104 | For references without connection time, they differ if and only if the chain clears the gateway, sets it last, and the stored gateway holds more than name and endpoint. |
| StatusPatch.StaleConnectionTime | crates/wasmbed-k8s-resource/src/device_client.rs:81-104 | Unreachable then connected in one chain keeps the stored connection time; as two patches it is gone. |
| StatusPatch.PlainStaysPlain | crates/wasmbed-types/src/k8s.rs:20-28 | From a gateway of name and endpoint only, such chains always agree and keep it so. |
| EdgeClient.WasmRunner.Deploy | crates/wasmbed-edge-client/src/wasm_runner.rs:52-74 | Replaces the application's task, or only stops it when the magic is bad; every task started is aborted or registered once. |
| EdgeClient.WasmRunner.Stop | crates/wasmbed-edge-client/src/wasm_runner.rs:77-86 | Succeeds exactly for a registered application, aborts its task and removes it. |
| EdgeClient.WasmRunner.RunningAppIds | crates/wasmbed-edge-client/src/wasm_runner.rs:94-96 | Every registered application exactly once. |
| EdgeClient.HandleMessage | crates/wasmbed-edge-client/src/protocol.rs:259-361 | For each message the answer sent and the applications then registered. |
| EdgeClient.ReadFrame | crates/wasmbed-edge-client/src/protocol.rs:108-119 | A frame read has 1 to 65536 bytes, and frame and rest make up the stream. |
| EdgeClient.EventLoop | crates/wasmbed-edge-client/src/protocol.rs:237-364 | Serves the decoded messages in order; all answers are sent, or the channel closed and exactly the first ones were. |
| EdgeClient.AcksInOrder | crates/wasmbed-edge-client/src/protocol.rs:271-318 | Among all that is sent, the acknowledgments are exactly one per Deploy or Stop, in order, a Stop succeeding if and only if the application was registered. |
| EdgeClient.AcksPrefix | crates/wasmbed-edge-client/src/protocol.rs:300-318 | When the channel closes, the acknowledgments sent are the first of them. |
| EdgeClient.RegisteredIff | crates/wasmbed-edge-client/src/wasm_runner.rs:52-106 | An application is registered if and only if some deployment of it passed digest and magic and no later message stopped it or redeployed it with a matching digest. |
| EdgeClient.DeployAnswer | crates/wasmbed-edge-client/src/protocol.rs:271-300 | Over every run: a deployment is acknowledged as a success if and only if the digest matches and the module starts with the four magic bytes; otherwise with one of two texts. |
| EdgeClient.StopAnswer | crates/wasmbed-edge-client/src/protocol.rs:302-318 | Over every run: a stop succeeds if and only if the messages before left the application registered; otherwise the text names it. |
| EdgeClient.StatusAnswer | crates/wasmbed-edge-client/src/protocol.rs:332-352 | Over every run: a status is Running if and only if the application is registered, otherwise Stopped. |
| EdgeClient.ListAnswer | crates/wasmbed-edge-client/src/protocol.rs:332-352 | Over every run: a listing holds one Running status for each registered application and nothing else. |
| EdgeClient.OtherAnswers | crates/wasmbed-edge-client/src/protocol.rs:263-361 | Device information as announced; enrollment messages, acknowledgments and undecodable frames draw no answer. |
| EdgeClient.ServesWhatWasSent | crates/wasmbed-edge-client/src/protocol.rs:108-134 | Messages encoded and framed by the gateway are the messages the loop serves. |
| EdgeClient.OversizedEndsLoop | crates/wasmbed-edge-client/src/protocol.rs:112-114 | A deployment encoded in more than 65536 bytes ends the connection. |
| CpuSampler.CpuAt | scripts/energy_campaign.py:100-115 | A value exactly inside the sampled range, and on ordered samples it lies on the polygon through them. |
| CpuSampler.LineIsProportional | scripts/energy_campaign.py:100-115 | Between two samples CPU use grows in proportion to time. |
| CpuSampler.CurveRises | scripts/energy_campaign.py:100-115 | CPU use never decreases with time. |
| CpuSampler.CurveIsFunction | scripts/energy_campaign.py:100-115 | There is one value at each time, and at a sample's time it is the sample's. |
| CpuSampler.CpuBetweenInner | scripts/energy_campaign.py:87-98 | The difference between last and first sample inside the window; none with fewer than two. |
| CpuSampler.InnerAtMostInterpolated | scripts/energy_campaign.py:87-98 | The CPU of the inner window never exceeds the interpolated CPU of the same window. |

## Left out

- TLS, certificates, ECDSA and SHA-256 themselves: a signature check and a hash are parameters, and a SubjectPublicKeyInfo is opaque bytes.
- Each callback and table method is one atomic step; locks, async cancellation and failures inside one HTTP handler are not modelled.
- Handshake.HandshakeAgreement: takes the bytes on the connection as those the gateway sent and the firmware as the only announcer there, which is what the TLS channel provides; that the frames read are the ones sent is proved, not taken. That each send draws at most one message is sufficient; AgreementIff gives the exact condition.
- Completion.FirmwareEnrollsIff: takes that signing works and that a signature has at most 255 bytes, which the firmware's buffer ensures, and that the firmware sends nothing else on the connection before its UUID.
- Framing.NetworkReceiveFramed: takes that the header's length plus four does not wrap 32 bits. The check for a socket that was never opened is left out.
- Deploy.Board.HandleMessage: takes a frame whose length does not wrap, as every frame that its caller Deploy.Board.RecvAndHandle delivers; the acknowledgment it yields is handed to the network, and what becomes of it is left out.
- Possession.AnswerCompletesIff: takes nonces of one length, which is 32 bytes in the source, and that the hash does not collide on the transcripts compared; Possession.ReplayRefused also takes that no nonce is drawn twice.
- Deploy.DeploymentAnswered: takes names and modules of less than 65536 bytes, as in every frame that fits the buffer; FirmwareParse.ShortIdParse has the other sizes.
- TimerRuns.AttemptSpacing: takes 30000 + d at most one turn of the 32-bit clock; so does TimerRuns.ReportSpacing.
- GatewayRuns.FastPathAgrees: holds while keys do not change hands between devices.
- Gateway.Callbacks.Message: messages about applications and device information only patch Application resources and log; they leave the tables alone, and their patches appear only as the gateway's turns of the controller's runs. Device status patches are left out.
- Gateway.Callbacks.CompleteEnrollment: the UUID is an input instead of being read from the device's name; the reason text of a failed creation omits the API error, and the status patches of the Device are not modelled.
- GatewayTables.HttpApiServer.RegisterDevice: device capabilities and the `is_enrolled` flag are not kept.
- Codec.ClientRoundTrip: texts are their UTF-8 bytes, without validation; environment maps are ordered pairs; 32-bit floats are four raw bytes.
- Wamr.RunSound: takes that the runtime hands out handles that are not live, and leaves out the instruction limit and the heap buffer.
- `wamr_call_function`, `wamr_call_wasi_start` and `wamr_process`: execution of WebAssembly.
- `cbor_skip_one`: it has no caller.
- The outcome of `do_enrollment` inside a reconnecting tick: a failed enrollment leaves the connection up, as in the source.
- Heartbeat.NeverUnreachableIff: takes heartbeats as resolved to the device and their patches as applied; the device's clock and the gateway's run at the same rate.
- Heartbeat.BeatSpacing: takes 25000 + d at most one turn of the 32-bit clock; WrapHidesBeat shows the next larger d.
- Controller.DeployToAll: the choice of gateway endpoint, the HTTP call and timestamps are left out; device counts are unbounded where the source casts to 32 bits; the error message is represented by the count it names; of a device's entry only status and error are kept.
- StatusPatch.PatchIsFieldwise: JSON numbers are integers; a resource is never without a name.
- EdgeClient.EventLoop: the answers to one message are computed before the first is sent; finished tasks stay registered, as in the source.
- CpuSampler.CpuAt: real numbers instead of floating point, and samples that lack a counter are not modelled.
- The API server, dashboard, CLI tools, emulator manager, gateway controller, device controller, certificate and configuration crates would only add easy members.
- The gateway's `enrollment.rs`, `heartbeat.rs`, `local_cache.rs`, `tls_server.rs` and `deployment.rs` are not part of its program.
