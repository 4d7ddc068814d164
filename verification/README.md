# APW: bridge, key exchange, framing and session store

A Dafny model of the parts of APW that carry state or arithmetic, with proofs about them:

- **The daemon's bridge** (`BridgeState`, `BrowserBridge`, `BridgeRuns`, `BridgeTheorems`, `BridgeReports`, `ConnectionHandlers`, `HandlerLoops`): connections attach, replace one another and fail; callers park requests under fresh ids and wait on one-shot slots. `BrowserBridge.Bridge` is the object with its locked sections. `BridgeRuns` lets any number of connections and callers interleave: one step is one locked section, one send after a lock was released, or one wake-up.
- **The extension's controller** (`ControllerState`, `BridgeController`, `ControllerTheorems`, `ControllerEffects`, `ControllerLiveness`, `ControllerFailures`): a queue, one request in flight, a native port, a WebSocket and a retry timer, driven by events.
- **Daemon and extensions together** (`EndToEnd`, `EndToEndFailures`): requests with their payloads go down, responses come up, late, repeated or out of order; what a caller gets back is an answer to what it sent.
- **Secure remote password arithmetic** (`ModArith`, `ByteEncoding`, `Srp`, `SrpExchange`): square-and-multiply in both implementations, big-endian encodings, padded hash inputs, key agreement (RFC 5054, sections 2.5.3 and 2.6), constant-time comparison.
- **Framing** (`Framing`): little-endian length-prefixed frames of the daemon, the Swift native host and the Deno daemon, and reads given up half way.
- **The helper loop** (`DirectHelper`): clients served one after the other from a helper process, with reads that time out.
- **The session store** (`ConfigState`, `ConfigStore`, `ConfigReads`, `ConfigTheorems`): one file, one keychain.

Every object the source mutates is a class. Its methods are proved equal to functions on the whole state, and the theorems about runs are about those functions.

## Where the code falls short of its intent

Each of these is proved with its exact condition, the first eight also with a concrete input or run that goes wrong.

- *Escaping the browser loop.* In `handle_browser_bridge_connection` an error inside a `select!` branch leaves the function through `?`, so the `mark_error` after the loop (rust/src/daemon.rs:1671-1675) is never reached with an error. Bad JSON, a failed receive or a failed write leaves the bridge "attached" to a dead connection until another one attaches; the native loop has no such event (`EventWedgesExactly`, `WedgedExactly`, `MalformedMessageWedges`, `WedgedUntilReattach`).
- *No connection check on responses.* `complete_response` does not ask which connection answers. Answers keep to their connection in a run exactly when each response to a parked id came from the connection active then (`ProvenanceExactly`, `ReplacedConnectionCanAnswer`).
- *Closing under a request in flight.* The close listener clears the request in flight and keeps the native port, whose late reply then answers a later request, up to the daemon's caller (`StepMatched`, `MatchedExactly` for one controller and for the whole system, `CloseInFlightMispairs`, `CallerGetsAnothersAnswer`).
- *A socket nobody holds opens.* The open listener cancels the retry without asking whose socket opened (browser-bridge/bridge-controller.js:151-152). A started controller is stranded, with no socket held, no retry armed and no load awaited, exactly when such a socket opened while none was held, or the last awaited load failed, and no later event rescued it (`StrandedAfterStep`, `StrandedExactly`). With sockets whose `close()` fires later, saving settings leads there: the late close drops the newer socket, whose opening then cancels the retry (`LateCloseStrands`). The late close itself strands nobody; what it ends is the invariant that every live socket is the one held (`AnchoredThroughoutExactly`).
- *A failed settings load.* `start()` marks the controller started before it awaits the load (browser-bridge/bridge-controller.js:74-75). If the load fails the controller is stranded, and starting again changes nothing (`FailedLoadStrands`; the events that do help are `Rescues`).
- *A read given up half way.* The native loop reads a frame inside `select!` (rust/src/daemon.rs:2034-2051), so a message to send can drop a read that already took bytes. The frames are then read as written exactly when no dropped read had taken a byte (`InterruptedReadsExactly`, `NextFrameAfterInterruption`, `InterruptedReadMisreads`).
- *A late answer of the helper.* When a read times out, the helper loop keeps the helper and the answer still owed (rust/src/daemon.rs:2373-2388). Clients get their own answers exactly when no read completes while bytes are owed to an earlier client; after one late answer each client gets the answer to the one before it (`OwnAnswersExactly`, `FirstLateAnswerMisleads`, `LateAnswerShiftsAll`).
- *Status writes and the keychain.* A metadata write with `allow_empty` deletes the key of a keychain session (rust/src/utils.rs:487-495), although such a write is meant to preserve existing credentials (rust/src/utils.rs:1132-1171, where the key is in the file). It does so before the file is written, so a write that fails can lose the session too (`MetadataWriteKeepsSessionExactly`, `StatusWriteLosesKeychainSession`, `FailedStatusWriteLosesKeychainSession`).
- *Limits.* Every writer accepts an empty payload that every reader refuses; the daemon writes up to 32768 bytes, the native host reads up to 16384, the Deno reader up to 16380 (`FrameRoundTrip`, `DaemonAndNativeHostInteroperate`, `ChunksDoNotMatter`).
- *`powermod`* is not the power modulo 1 for exponent 0 (`PowModIsPower`); the Deno `pad` keeps the leading, the Rust `pad` the trailing bytes of a long input (`PadDenoDecodes`, `PadDecodes`).

## Model

| member | source | states |
|---|---|---|
| BridgeState.MarkStatusKeepsCoupling | rust/src/daemon.rs:309-340 | which statuses may be marked without parting transport, active connection, attached status and connection time |
| BridgeState.MarkPublishes | rust/src/daemon.rs:309-340 | the snapshot after a mark, for every status, and what the mark lets go of |
| BridgeState.SecondGuardNeverFires | rust/src/daemon.rs:383-406 | the second guard of a request is dead, and the first fires exactly when the status is not attached |
| BrowserBridge.FailPending | rust/src/daemon.rs:450-454 | each sender of a batch gets the error once, no other sender gets anything |
| BrowserBridge.Bridge.constructor | rust/src/daemon.rs:130-147 | a new bridge is waiting, with nothing attached or parked |
| BrowserBridge.Bridge.Attach | rust/src/daemon.rs:266-296 | the new connection takes over, and everything parked fails as replaced |
| BrowserBridge.Bridge.CompleteResponse | rust/src/daemon.rs:298-307 | the response goes to the sender parked under the id, once, or nowhere |
| BrowserBridge.Bridge.MarkStatus | rust/src/daemon.rs:309-340 | only the active connection is marked; error and disconnect hand over everything parked |
| BrowserBridge.Bridge.MarkError | rust/src/daemon.rs:342-349 | everything parked on the faulty connection fails with its error |
| BrowserBridge.Bridge.MarkDisconnected | rust/src/daemon.rs:351-364 | everything parked on the lost connection fails |
| BrowserBridge.Bridge.EnqueueRequest | rust/src/daemon.rs:383-428 | parked and sent, or refused with nothing left parked, with the reason |
| BridgeRuns.StepKeepsInv | rust/src/daemon.rs:266-454 | every step keeps coupling, conservation, addressing, routing and the callers' accounts |
| BridgeTheorems.ReachableInv | rust/src/daemon.rs:266-454 | the same after every run |
| BridgeTheorems.ReachableStatesAreCoupled | rust/src/daemon.rs:130-147 | in every reachable state the four attachment facts agree, and the second guard is dead |
| BridgeTheorems.EachRequestInOnePlace | rust/src/daemon.rs:266-454 | after every run each issued id is in exactly one place and each slot got at most one result |
| BridgeTheorems.CallersGetTheirOwnReply | rust/src/daemon.rs:430-447 | a caller gets the reply sent for its own request; while it waits its sender exists, so the dropped-sender branch is dead |
| BridgeTheorems.HistoryOnlyGrows | rust/src/daemon.rs:266-454 | no result, send or route is ever taken back |
| BridgeTheorems.ParkedUntilAnsweredOrDetached | rust/src/daemon.rs:266-338 | a parked id, timed out or not, stays parked exactly until it is answered, a connection attaches, or the active one is marked |
| BridgeTheorems.LateResponseIsInert | rust/src/daemon.rs:298-307 | a response from an inactive connection to an id it was given changes nothing |
| BridgeReports.SnapshotAfterStep | rust/src/daemon.rs:266-340 | the published name, time, status and error after every step |
| BridgeReports.SnapshotNamesTheLastToAttach | rust/src/daemon.rs:266-296 | over any run the snapshot names the last connection to attach, and while one is active shows it with its time and no error |
| BridgeReports.WaitingUntilTheFirstAttaches | rust/src/daemon.rs:122-140 | before any connection attaches the snapshot is waiting, with nothing named |
| BridgeReports.EveryReplyIsExplained | rust/src/daemon.rs:266-364 | whatever a caller gets back was given to its own request by a step of the run: a response's content, the failure of replacement, or the error of a mark |
| BridgeReports.LeaversAreHeld | rust/src/daemon.rs:266-340 | no parked sender is dropped without a reply |
| BridgeReports.RefusalNamesTheStatus | rust/src/daemon.rs:383-428 | when a request is refused and with which status, and where it is parked otherwise |
| BridgeTheorems.StepKeepsProvenance | rust/src/daemon.rs:298-307 | one step keeps every answer on its request's connection exactly when it is guarded |
| BridgeTheorems.ProvenanceExactly | rust/src/daemon.rs:272-307 | the same over any run, both directions |
| BridgeTheorems.DisciplineSuffices | rust/src/daemon.rs:378-428 | if each connection answers only ids sent to it, the missing check is never missed |
| BridgeTheorems.StaleEventsCanBeErased | rust/src/daemon.rs:315-327 | marks by connections inactive at that moment can be erased from any run |
| ConnectionHandlers.EventWedgesExactly | rust/src/daemon.rs:1578-1678 | an event leaves the bridge attached to a dead connection exactly when it escapes the browser loop |
| ConnectionHandlers.ResponseServed | rust/src/daemon.rs:1641-1665 | the reply a response gives, in both modes, and that it goes to the sender parked under its id |
| ConnectionHandlers.EventServed | rust/src/daemon.rs:1578-1640 | which events fail everything parked, with which error, and that the others leave it parked |
| ConnectionHandlers.WedgedAfterStep | rust/src/daemon.rs:272-338 | exactly which step wedges and which unwedges |
| ConnectionHandlers.WedgedExactly | rust/src/daemon.rs:266-340 | over any run, the bridge ends attached to a dead connection exactly when it began so or the active handler returned without a mark, and nobody attached since |
| ConnectionHandlers.WedgedUntilReattach | rust/src/daemon.rs:383-428 | until then the status says attached, nothing new is parked and every request is refused |
| ConnectionHandlers.MalformedMessageWedges | rust/src/daemon.rs:1612 | one malformed browser message does it, with a request parked |
| ConnectionHandlers.ReplacedConnectionCanAnswer | rust/src/daemon.rs:298-307 | a reachable state in which a replaced connection answered another's request |
| HandlerLoops.ServeBrowser | rust/src/daemon.rs:1578-1678 | where the loop stops, when it leaves the bridge attached, and every reply it sends, turn by turn |
| HandlerLoops.ServeNative | rust/src/daemon.rs:2033-2107 | the loop stops at the first ending event, never leaves the bridge attached, and every reply it sends, turn by turn |
| BridgeController.BridgeController.constructor | browser-bridge/bridge-controller.js:22-67 | the idle controller |
| BridgeController.BridgeController.UpdateState | browser-bridge/bridge-controller.js:117-124 | publishes the labels and the true depth |
| BridgeController.BridgeController.SendResponse | browser-bridge/bridge-controller.js:385-403 | one response, on the wire exactly when the socket is open |
| BridgeController.BridgeController.FailCurrentAndQueue | browser-bridge/bridge-controller.js:358-375 | the request in flight, then the queue in order, are each answered once as failed |
| BridgeController.BridgeController.ScheduleReconnect | browser-bridge/bridge-controller.js:196-204 | arms one timer, if started and none is armed |
| BridgeController.BridgeController.CancelReconnect | browser-bridge/bridge-controller.js:206-212 | disarms it |
| BridgeController.BridgeController.ConnectWebSocket | browser-bridge/bridge-controller.js:126-149 | a socket if none is held, a retry if creating it fails |
| BridgeController.BridgeController.OnClose | browser-bridge/bridge-controller.js:176-185 | drops the socket, fails everything, retries; the port stays |
| BridgeController.BridgeController.DisconnectWebSocket | browser-bridge/bridge-controller.js:188-194 | lets go of the socket and closes it if it is not closing yet |
| BridgeController.BridgeController.ConnectNative | browser-bridge/bridge-controller.js:242-272 | the port held, a new one, or none |
| BridgeController.BridgeController.DisconnectNative | browser-bridge/bridge-controller.js:274-295 | the port ends and everything fails |
| BridgeController.BridgeController.FlushQueue | browser-bridge/bridge-controller.js:297-326 | posts the head of the queue if the line is free and open; every failure branch |
| BridgeController.BridgeController.HandleNativeMessage | browser-bridge/bridge-controller.js:328-356 | answers the request in flight, with 104 for a malformed message, then flushes |
| BridgeController.BridgeController.HandleWebSocketMessage | browser-bridge/bridge-controller.js:214-240 | queues a well-formed request, ignores everything else |
| BridgeController.BridgeController.Stop | browser-bridge/bridge-controller.js:88-93 | ends timer, port and socket, in that order |
| BridgeController.BridgeController.SettingsSaved | browser-bridge/bridge-controller.js:95-109 | drops the socket and connects anew |
| BridgeController.BridgeController.Handle | browser-bridge/bridge-controller.js:69-212 | every event does what the state function says |
| ControllerTheorems.StepOrderly | browser-bridge/bridge-controller.js:234-375 | every event keeps accepted = answered, in flight, queued, and leaves no idle work |
| ControllerTheorems.AnsweredInOrderExactlyOnce | browser-bridge/bridge-controller.js:234-375 | after every run the i-th answer is to the i-th accepted request, the rest in order in flight and queued; no idle work; the depth is right |
| ControllerTheorems.WhichRejectionsReachTheDaemon | browser-bridge/bridge-controller.js:358-403 | rejections after a close never reach the daemon, those after a lost port exactly when the socket is open |
| ControllerEffects.StopLetsGoOfAll | browser-bridge/bridge-controller.js:88-93 | from any state, what stopping lets go of: socket, port, timer, request in flight and queue |
| ControllerEffects.StopEndsEverything | browser-bridge/bridge-controller.js:88-93 | from an orderly state no timer, port or socket is left alive |
| ControllerEffects.StoppedStaysSilent | browser-bridge/bridge-controller.js:69-72 | until it is started again, whatever happens, no socket is created, no port opened, nothing posted and nothing sent |
| ControllerEffects.ReplyAnswersInFlight | browser-bridge/bridge-controller.js:328-356 | the response to a port's message: the message, or code 104, on the wire exactly if the socket is open |
| ControllerEffects.OthersOnlyReject | browser-bridge/bridge-controller.js:358-403 | every other response is a rejection with code 103, and exactly when those reach the daemon |
| ControllerEffects.PostsOnlyWhenOpen | browser-bridge/bridge-controller.js:297-326 | a request is posted only with an open socket held |
| ControllerEffects.LabelsAfterStep | browser-bridge/bridge-controller.js:117-295 | both published labels after every event |
| ControllerEffects.ReachableLabels | browser-bridge/bridge-controller.js:117-295 | in every reachable state the port label says connected exactly when a port is held, and the socket label is about a socket that was created |
| ControllerTheorems.StepMatched | browser-bridge/bridge-controller.js:176-185 | how each event changes the replies a port owes, and exactly when a success response carries another request's reply |
| ControllerTheorems.MatchedExactly | browser-bridge/bridge-controller.js:274-356 | over any run replies meet their requests exactly when none was used while an older one was owed |
| ControllerTheorems.RepliesReachTheirRequests | browser-bridge/bridge-controller.js:274-356 | if no socket closes under a request in flight, each success response carries the reply to that request's payload |
| ControllerLiveness.StrandedAfterStep | browser-bridge/bridge-controller.js:69-212 | from any state, exactly which event leaves the controller started with no socket, no retry and no load awaited |
| ControllerLiveness.StrandedExactly | browser-bridge/bridge-controller.js:151-212 | over any run, it ends so exactly when it was stranded, by an unheld socket opening or the last load failing, and not rescued since |
| ControllerLiveness.AnchoredAfterStep | browser-bridge/bridge-controller.js:126-212 | one timer at most, no live socket but the one held, and not stranded: this is lost exactly by a late close or the failure of the last load |
| ControllerLiveness.AnchoredThroughoutExactly | browser-bridge/bridge-controller.js:69-212 | that invariant holds at every point of a run exactly when the run has neither |
| ControllerLiveness.NeverStranded | browser-bridge/bridge-controller.js:69-212 | what such runs end with: not stranded, no second live socket, one timer at most |
| ControllerLiveness.PromptSocketsNeverStrand | browser-bridge/bridge-controller.test.js:81-84 | with sockets that close at once, and loads that succeed, no run loses the invariant |
| ControllerFailures.CloseInFlightMispairs | browser-bridge/bridge-controller.js:176-185 | a reachable state in which the answer to one request was sent for the next |
| ControllerFailures.LateCloseStrands | browser-bridge/bridge-controller.js:95-109 | a reachable stranded state with an open socket the controller does not hold |
| ControllerFailures.FailedLoadStrands | browser-bridge/bridge-controller.js:69-75 | a reachable stranded state in which starting again changes nothing |
| EndToEnd.DecimalReads | rust/src/daemon.rs:378-381 | the number in a request id is its decimal text |
| EndToEnd.WireIdInjective | rust/src/daemon.rs:378-381 | different requests never share an id on the wire |
| EndToEnd.CallersGetAnswersToTheirPayloads | rust/src/daemon.rs:371-448 | in every run of the daemon with any number of extensions in which no reply was used while its port owed an older one, a caller that gets a payload gets a native port's answer to the posting of that caller's own request |
| EndToEnd.MatchedExactly | browser-bridge/bridge-controller.js:274-356 | over any run of the whole system, all success responses of all extensions carry the replies to their own requests exactly under that condition |
| EndToEnd.CalmRunsFit | browser-bridge/bridge-controller.js:176-185 | the condition holds when no socket closes under a request in flight |
| EndToEnd.CalmCallersGetAnswersToTheirPayloads | rust/src/daemon.rs:371-448 | so in such runs callers get the answers to their own requests |
| EndToEndFailures.CallerGetsAnothersAnswer | browser-bridge/bridge-controller.js:176-185 | a run in which a caller gets the native port's answer to another caller's payload |
| ModArith.PowerMod | rust/src/utils.rs:711-743 | the loop's result for every modulus, by the power itself |
| ModArith.PowModIsPower | rust/src/utils.rs:723-743 | it is the power modulo the modulus exactly for modulus 2 and up, or a positive exponent |
| ModArith.PowModDegenerate | rust/src/utils.rs:711-743 | modulo 0 and 1 it is 0, but 1 for exponent 0 |
| ModArith.JsModIsResidue | legacy/deno/src/utils.ts:90-94 | sign-following remainder plus correction is the least residue |
| ModArith.PowerModDeno | legacy/deno/src/utils.ts:96-116 | the power modulo the modulus for every base, negative ones too; the two errors |
| ByteEncoding.ToBuffer | legacy/deno/src/utils.ts:38-49 | the loop builds the big-endian digits |
| ByteEncoding.ReadBigInt | legacy/deno/src/utils.ts:77-79 | the fold is the big-endian value |
| ByteEncoding.DigitAt | legacy/deno/src/utils.ts:77-79 | byte i from the left is the digit of 256^(n-1-i) |
| ByteEncoding.DecodeEncode | legacy/deno/src/utils.ts:38-79 | decoding an encoding gives the number back, and encodings are canonical |
| ByteEncoding.EncodeDecode | legacy/deno/src/utils.ts:38-79 | encoding a decoding gives the bytes back exactly when they are canonical |
| ByteEncoding.PadInto | rust/src/utils.rs:695-703 | the buffer is the trailing bytes, or zeros then the input |
| ByteEncoding.PadIntoDeno | legacy/deno/src/utils.ts:84-88 | the buffer is the leading bytes, or zeros then the input |
| ByteEncoding.PadDecodes | rust/src/utils.rs:695-703 | padding to L bytes keeps the number modulo 256^L |
| ByteEncoding.PadDenoDecodes | legacy/deno/src/utils.ts:84-88 | padding a long input drops its lowest digits |
| ByteEncoding.TruncatedIs | rust/src/utils.rs:695-703 | the lowest width digits of a number are the number modulo 256^width |
| ByteEncoding.FieldInjective | rust/src/srp.rs:185-197 | padded fields coincide exactly for numbers equal modulo 256^L |
| ByteEncoding.XorBit | legacy/deno/src/srp.ts:358-373 | a bit is set exactly when one of the two is |
| ByteEncoding.VerifyConstantTime | legacy/deno/src/srp.ts:358-373 | the accumulating loop decides equality, for all lengths |
| ByteEncoding.VerifyHamkDeno | legacy/deno/src/srp.ts:375-381 | true exactly for equal, non-empty proofs |
| ByteEncoding.VerifyHamk | rust/src/srp.rs:452-457 | the same condition |
| Srp.UnsignedRefinesSigned | rust/src/srp.rs:224-234 | the branchy unsigned subtraction never underflows and is the residue of B - k*g^x, for every B |
| Srp.DenoSecret | legacy/deno/src/srp.ts:223-230 | the signed computation of the secret |
| Srp.RustAndDenoSecretsAgree | rust/src/srp.rs:221-243 | both reach the same secret, and Rust refuses exactly when the prime divides the base |
| Srp.KeyAgreement | rust/src/srp.rs:221-243 | the client finds the server's secret, refusing exactly when the prime divides g^b |
| Srp.MultiplierIs | rust/src/srp.rs:27-37 | the multiplier hashes the modulus, then the generator, each as its lowest digits |
| Srp.ScrambleIs | rust/src/srp.rs:185-197 | the scramble hashes the client key, then the server key |
| Srp.PasswordKeyIs | rust/src/srp.rs:199-222 | x hashes the padded salt, then the hash of user, colon, password |
| SrpExchange.SessionKeysAgree | rust/src/srp.rs:199-247 | against a server written from RFC 5054 with those inputs, deriving the session key reaches the server's, for every group, hash, user, password, salt and private keys; it fails exactly when the modulus divides g^b |
| SrpExchange.ServerExists | rust/src/srp.rs:199-247 | there is always such a server |
| SrpExchange.Handshake | rust/src/srp.rs:249-275 | from hello to shared key: refused exactly when the server's key is 0, then failing exactly when the modulus divides g^b, and otherwise the server's session key |
| SrpExchange.HelloRefusedThoughPowerIsNot | rust/src/srp.rs:254-259 | the two refusals differ: a group and keys where the first fires and the second would not |
| Srp.ScrambleInputInjective | rust/src/srp.rs:185-197 | the scramble's hash input determines both keys modulo 256^width |
| Srp.TranscriptInjective | rust/src/srp.rs:306-317 | one user's proof inputs are equal exactly when salt and all three keys agree modulo 256^width, whatever the hash |
| Srp.XorBytesBits | rust/src/srp.rs:299-303 | each bit of the exclusive or, and its length |
| Srp.TranscriptLayout | rust/src/srp.rs:297-317 | what the proof hashes, by offset: the bits of the exclusive or, the user's hash, salt, client key, server key and shared key in that order, and the scramble |
| Srp.DeriveSecret | rust/src/srp.rs:223-243 | the secret, or the refusal of a zero base |
| Srp.Session.SetServerPublicKey | rust/src/srp.rs:249-263 | refuses exactly a key divisible by the prime, and then changes nothing |
| Srp.Session.DeriveSessionKey | rust/src/srp.rs:199-247 | the session key of these fields, or the error |
| Srp.Session.SetSharedKey | rust/src/srp.rs:265-275 | stores the derived key, or keeps the old one on an error |
| Srp.Session.ComputeM | rust/src/srp.rs:277-319 | the hash of the transcript, or an error while a value is missing |
| Framing.LE32RoundTrip | rust/src/daemon.rs:173-217 | the length header is read back |
| Framing.LE32Digits | rust/src/daemon.rs:173-217 | byte i of the header is the digit of 256^i |
| Framing.FrameRoundTrip | rust/src/daemon.rs:165-226 | a written frame is read back, whatever follows, exactly for payloads of 1 to the reader's limit |
| Framing.VerdictIsFinal | rust/src/daemon.rs:1871-1895 | a frame read stays the first whatever follows, and a header is refused exactly when no continuation has a frame |
| Framing.DaemonAndNativeHostInteroperate | native-host/Sources/main.swift:129-150 | daemon and native host understand each other exactly for 1 to 16384 bytes, both ways |
| Framing.StreamRoundTrip | rust/src/daemon.rs:1871-1927 | a list of frames is read back as that list exactly when none is empty or too long |
| Framing.StreamIsCanonical | rust/src/daemon.rs:1871-1895 | any stream read to its end is the writing of what was read |
| Framing.InterruptedReadsExactly | rust/src/daemon.rs:2034-2051 | at any point of a series of reads, some given up: the frames so far came back as written and the rest is intact exactly when no read given up had taken a byte |
| Framing.NextFrameAfterInterruption | rust/src/daemon.rs:1871-1895 | the frame a given-up read was on is read next exactly when that read had taken nothing |
| Framing.InterruptedReadMisreads | rust/src/daemon.rs:2051-2058 | a given-up read after which part of a payload comes back as a frame |
| Framing.ReadSeries | rust/src/daemon.rs:2033-2058 | the loop's reads on one stream, given up or completed: the payloads, the first error, and what is left after success |
| DirectHelper.ServeClients | rust/src/daemon.rs:2349-2440 | what each client is told and what the helper still owes, over the whole loop |
| DirectHelper.OutcomeTells | rust/src/daemon.rs:2360-2440 | which clients are told what |
| DirectHelper.OwnAnswerExactly | rust/src/daemon.rs:2373-2388 | a completed read is the client's own answer, to the last byte, exactly when nothing was owed when it asked |
| DirectHelper.OwnAnswersExactly | rust/src/daemon.rs:2349-2440 | over any series of clients all get their own answers exactly when no read completes while bytes are owed to an earlier client |
| DirectHelper.PromptHelperServesAll | rust/src/daemon.rs:2376-2381 | while no answered read is given up, all do |
| DirectHelper.FirstLateAnswerMisleads | rust/src/daemon.rs:2376-2381 | after the first that is, the next read to complete is not its client's answer |
| DirectHelper.LateAnswerShiftsAll | rust/src/daemon.rs:2376-2381 | after one late answer every client gets the answer to the one before it |
| Framing.FileHandle.ReadExact | native-host/Sources/main.swift:118-127 | however the bytes arrive, exactly the next ones, or an error on a short stream |
| Framing.FileHandle.ReadFrame | native-host/Sources/main.swift:129-139 | one frame off the stream; each error, and what it leaves of the stream |
| Framing.FileHandle.WriteFrame | native-host/Sources/main.swift:141-150 | the frame is appended, or nothing on an oversized payload |
| Framing.ReadFramedResponse | legacy/deno/src/daemon.ts:100-152 | returns a payload exactly when some number of chunks is its frame within the limit |
| Framing.ChunksDoNotMatter | legacy/deno/src/daemon.ts:100-152 | however a frame is cut, its payload is returned exactly for 1 to 16380 bytes |
| ConfigStore.ConfigStore.Clear | rust/src/utils.rs:394-409 | what leaves the file and the keychain |
| ConfigStore.ConfigStore.ReadFile | rust/src/utils.rs:117-172 | the record found, and what is cleared when it is rejected |
| ConfigStore.ConfigStore.Place | rust/src/utils.rs:449-503 | where a write puts the key and what it does to the keychain, in every branch and on failure |
| ConfigStore.ConfigStore.Write | rust/src/utils.rs:411-665 | file, keychain and result in every branch |
| ConfigStore.ConfigStore.Read | rust/src/utils.rs:251-392 | result and what is cleared in every branch |
| ConfigReads.ReadLeaves | rust/src/utils.rs:251-409 | a read leaves the store or removes the file, exactly when no reader accepts it, it expired, or the read reports an error; with it goes exactly the keychain entry it owned |
| ConfigReads.ExpiredIsGone | rust/src/utils.rs:304-311 | after a read found the record expired, no later reader of any kind finds a session |
| ConfigReads.ReadGives | rust/src/utils.rs:251-392 | what a read of an accepted record returns, field by field, which key, and exactly when it is an error |
| ConfigReads.ReadWithoutRecord | rust/src/utils.rs:251-300 | without one, an error or the defaults |
| ConfigReads.RecordFound | rust/src/utils.rs:117-249 | which files hold a record, and what a legacy one becomes |
| ConfigReads.WriteFailsExactly | rust/src/utils.rs:411-665 | when a write fails, and with which error |
| ConfigReads.FailedWriteKeepsFile | rust/src/utils.rs:411-665 | a failed write leaves an accepted file as it was |
| ConfigReads.KeyIsInOnePlace | rust/src/utils.rs:475-485 | a new key is in the keychain or in the file, never both |
| ConfigReads.WhenKeychainIsNamed | rust/src/utils.rs:449-515 | exactly when the record points to the keychain |
| ConfigReads.WriteTouchesOwnEntries | rust/src/utils.rs:411-665 | a write touches no other user's keychain entry |
| ConfigReads.ClearingForgets | rust/src/utils.rs:449-475 | clearing leaves no session for any reader |
| ConfigTheorems.SessionRoundTrip | rust/src/utils.rs:251-665 | a written session is read back, with the host, port, mode, fields and time the write was given, exactly within the age limit and with a readable keychain |
| ConfigTheorems.WrittenIsAccepted | rust/src/utils.rs:117-172 | no successful write fails the reader's checks |
| ConfigTheorems.MetadataWriteKeepsSessionExactly | rust/src/utils.rs:411-665 | exactly which sessions survive a metadata write, whether it succeeds or fails, for any later reader |
| ConfigTheorems.StatusWriteLosesKeychainSession | rust/src/utils.rs:487-495 | a concrete session lost to a write that succeeds |
| ConfigTheorems.FailedStatusWriteLosesKeychainSession | rust/src/utils.rs:487-495 | the same session lost to a write that fails |
| ConfigTheorems.MetadataWriteStep | rust/src/utils.rs:411-665 | one metadata write, successful or not, keeps a file session's user, key and time, and merges exactly the fields supplied |
| ConfigTheorems.MetadataRunKeepsSession | rust/src/daemon.rs:239-259 | over any run of metadata writes a file session keeps user, key and time, and each field is the last value supplied since its reset |

## Left out

- Sockets, processes, file permissions and temporary files: input and output. Delivery is events, a stream is a byte sequence, the file is one entry replaced at once.
- JSON, base64, hex, dates, SHA-256 and AES-GCM: libraries. Parsed values, decoded keys and times stand for them, and the hash is any function.
- The literal group prime: the modulus is a parameter, and its primality is not claimed.
- 64-bit wrap-around of the request and connection counters: the counters are unbounded.
- `persist_snapshot`: the bridge's state and the stored status are written in separate steps, and no claim joins them.
- Wording of errors and of the not-attached guidance, and `lastError` of the published controller state: texts.
- A malformed client payload, refused before a request id is drawn: no step of the bridge.
- HandlerLoops.ServeBrowser: no other connection attaches while it runs, because methods cannot interleave; those interleavings are the steps of `BridgeRuns`.
- HandlerLoops.ServeNative: no other connection attaches while it runs, for the same reason, and it takes each inbound frame whole; reads given up half way are `Framing.ReadSeries`.
- EndToEnd.CallersGetAnswersToTheirPayloads: covers connections served by extensions; a native host that attaches to the daemon itself answers by the same bridge, but its own processing is not modelled.
- A settings save that fails: the controller keeps its socket and publishes nothing, so it is no event.
- The hello exchange before a connection attaches: the model starts each handler at its attach, and allows marks before it.
- DirectHelper.ServeClients: an answer's shape is not parsed and a helper's bytes are whole frames of its answers; a request half written to a dying helper is one turned away.
- Status and hello messages the controller sends, and a throwing socket write, which is only logged: they change no field.
- Srp.RustAndDenoSecretsAgree: stops at the secret, because salt padding and proof layout differ between the two implementations.
- Shifts and masks on numbers are written as division, remainder and multiplication; exclusive and inclusive or are defined bit by bit.
- Ports are natural numbers and a host is blank when it holds only spaces, tabs and line breaks.
- Text and status output, host and application installation, client message builders: user interface and wiring.
