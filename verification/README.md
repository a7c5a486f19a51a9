# A model of the SPDM requester

The SPDM requester is a daemon that discovers devices, connects to each of them,
opens secure sessions as two policy flags demand, and serves signed measurements
with the device's certificate chain over D-Bus. This project models its four
stateful parts in Dafny and proves what they promise together.

**A. Lifecycle** (`SpdmAlgorithms`, `SpdmCalls`, `SessionSpec`, `SpdmObjects`, `SpdmResponder`,
`DaemonSpec`, `DaemonProofs`, `DaemonHistory`, `DaemonTheorems`, `DaemonOutcome`,
`Daemon`). The daemon reacts to five events:
discovery completes with a list of devices, `Enabled` is written,
`SecureSessionEnabled` is written, a client asks a responder for measurements, and
shutdown. Every device call is recorded in
a trace and answered by a *script*, an arbitrary function from positions to
replies, so a statement about all scripts covers every way the devices can answer
or fail. A context is named by the position of the allocation that made it; a
transport that is initialised again therefore gets a new name, and a call on an
old context is told apart from one on the new. `SpdmCalls.Legal` says when a trace
is in order: a session starts only on a context that was initialised, configured
and connected, behind the trust anchor and the certificate fetch, while no session
is open there; stops, heartbeats and key updates name a session that is open; and
measurements are asked of a connected context.
The classes `Transport`, `SpdmSession`, `ComponentIntegrity`, `SPDMDBusResponder` and
`Daemon` carry the source's fields and loops. Their methods are proved equal to the functions of
`SessionSpec` and `DaemonSpec`, up to the whole event loop
(`DaemonObject.Daemon.HandleAll`); the theorems are about those functions, over
every run. `DaemonOutcome` is a second description of every event, written as
lists of calls with what is demanded of each reply, and proved to give the same
responders, sessions, calls and transport fields.

**B. Framing** (`TcpFrame`, `TcpStream`, `TcpIo`, `Mctp`). A socket is a byte
sequence and a *plan*, an arbitrary list of what the next `send` or `recv` calls
do: move so many bytes, be interrupted, or fail (a timeout and every other error
are one failure; end of stream is a call that moves nothing). `Transfer` says what
a retry loop makes of a plan. The loops of `write` and `read` are proved against
it, and the exchange of many messages between two ends with unrelated plans is
proved in order, with an exact count of what arrives and of the bytes a failed read loses,
independent of how the bytes were cut. The source leaves the socket open after a
failure and uses it again (requester/tcp_helper.hpp:210-215), so what a next attempt
meets is stated too: it is at the boundary of a frame exactly when nothing was lost,
or only whole frames were sent, and otherwise it can yield a message nobody sent. MCTP
is the second instance: two header bytes, three bytes taken off, three put back.

**C. Certificates as text** (`Base64`, `DerChain`, `PemChain`). Base64 is specified
recursively (RFC 4648, section 4) with a strict decoder (section 3.5). A chain is
walked by index over definite-length SEQUENCEs (ITU-T X.690, sections 8.1.3 and
10.1). The printed chain is parsed by the strict grammar of RFC 7468, section 3,
with its three line ends (CR, LF, CRLF) and the label of section 5. Parsing what was
printed gives the certificates back; printing what was parsed gives the text back
exactly when it ends its lines with LF alone.

**D. Measurements** (`Attestation`). The three validation passes, the collecting
loop, the certificate slicing and the D-Bus method that joins them, each proved
for every script of replies, with the pigeonhole bound on the result. Two things
differ from what the comments and the D-Bus interface suggest, and follow the code:
the nonce is said to be there for freshness, but only its length is logged
(requester/component_integrity_dbus.cpp:262, 270-272), so no call and no result depends
on it; and the slot is narrowed to eight bits without a check, so that slot 256 is
answered as slot 0 (`Attestation.SlotNarrowing`).

Conventions: shifts and masks of unsigned words are written as division and
remainder by powers of two. `size_t` is taken as 64 bits wide; casts to 8 and 32
bits are written as remainders. Exceptions are failures in a result type. The
alphabet table of the encoder is a concatenation of literals, and characters
appended one after another without a branch between them are appended together.

## Model

| member | source | states |
|---|---|---|
| DaemonTheorems.HistoryIndependence | requester/spdmd.cpp:253-363 | when every device call succeeds, responders and session activity after any events are one function of the latest flags and the latest devices: empty unless enabled, else one responder per device with a transport, active iff secure sessions are enabled |
| DaemonTheorems.Recovery | requester/spdmd.cpp:85-363 | whatever failed before, once calls succeed and a discovery completes or the daemon is off, responders and sessions are and stay that same function of the latest flags and devices |
| DaemonTheorems.StaysBelowTarget | requester/spdmd.cpp:253-363 | with arbitrary failures, the responders are a subsequence of what the latest flags and devices ask for, and a session is active only if the latest flag asks for it |
| DaemonOutcome.RunExactly | requester/spdmd.cpp:253-363 | at every point of every run, whatever fails, an event leads to exactly the responders, sessions, calls and transport fields that its lists of calls and checks give: a device is listed iff the calls that prepare it all pass, its session is open iff its opening calls pass too, and no failure touches another device |
| DaemonOutcome.RequestGoesToItsDevice | requester/component_integrity_dbus.cpp:393-405 | a request to a listed responder makes calls iff it is acceptable, all on that responder's own context: connect, digests, certificate of the slot, then the measurements in the order asked for, and nothing else |
| DaemonOutcome.SocketsStayOpen | requester/tcp_helper.hpp:210-215 | in every reachable state each listed responder's transport is open, has a scratch buffer and notes the configured version and flags; discovering such devices again opens no socket |
| DaemonOutcome.ShutdownExactly | requester/spdmd.cpp:367-376 | the end makes one stop request for each active session, in order, and no other call |
| DaemonOutcome.ProcessExactly | requester/spdmd.cpp:85-198 | after processing, list, calls and transport fields are the expected ones, computed device by device from the replies, from whether the device's socket is open and from the version its transport notes, behind the stop requests of the old sessions in order |
| DaemonOutcome.AddDeviceExactly | requester/spdmd.cpp:106-195 | one device: which calls are made, whether it is listed, whether it has a session, and what its transport then is, by the checks on its own replies |
| DaemonOutcome.LinkFollows | requester/libspdm_tcp_transport.cpp:22-60 | the transport after preparing a device, by how many checks were met: socket, context, scratch buffer, and the version and flags noted |
| DaemonOutcome.OpenFirstExactly | requester/spdmd.cpp:314-345 | the runtime flip opens exactly the sessions whose own opening calls pass, beside those open before |
| DaemonOutcome.CloseFirstExactly | requester/spdmd.cpp:60-75 | closing makes one stop request per active session, in order, on its own context and identifier, and leaves none active |
| DaemonOutcome.PrepareFollows | requester/spdmd.cpp:118-159 | the calls that prepare a device are exactly those of its list up to the first that fails, and it is connected iff all pass |
| DaemonOutcome.OpenFollows | requester/spdm_dbus_responder.cpp:41-76 | the calls that open a session, with its heartbeat, are exactly those of the list up to the first that fails, and it is active iff all pass |
| DaemonOutcome.AnchorFollows | requester/spdm_session_config.cpp:156-190 | the trust anchor is installed iff its source can be read and the install succeeds: one, two or three calls, none without a named anchor |
| DaemonOutcome.ServeFollows | requester/component_integrity_dbus.cpp:393-405 | serving makes exactly the calls of its list up to the first that fails, a chain too short for its header and hash being a failure |
| DaemonTheorems.RunHasLatest | requester/spdmd.cpp:253-363 | flags and devices after any run are the last ones written or discovered, whatever failed |
| DaemonTheorems.PolicySafety | requester/spdmd.cpp:259-363 | in every reachable state, `Enabled` false means no responder, and either flag false means no open session on any context and no active session object |
| DaemonTheorems.AuthoritativeReplace | requester/spdmd.cpp:85-198 | in every reachable state the responders are an order-preserving subsequence of the current devices, none twice, each on its own initialised, configured and connected context |
| DaemonTheorems.LifeIsLegal | requester/spdm_session.hpp:21-24 | every trace a run followed by shutdown can produce is legal, and extends the trace of the run |
| DaemonTheorems.EveryStartIsPrepared | requester/spdm_dbus_responder.cpp:41-76 | every session start of any run: the same context was initialised, configured call by call and connected in this order; the first non-empty anchor source was loaded and installed, then the slot's digest bit was found and its certificate fetched, directly before the start; nothing was open there |
| DaemonTheorems.EveryMeasurementIsPrepared | requester/component_integrity_dbus.cpp:393-404 | every measurement of any run is asked of a context that was initialised, configured and connected before, and within its own request: that connected again, asked for the digests and fetched the same slot's certificate, in a row and successfully, and has made only answered measurements of that context and slot since |
| DaemonTheorems.RequestsAreServed | requester/component_integrity_dbus.cpp:383-428 | a request to a listed responder is answered iff it is acceptable and the replies serve it, and changes no responder and no open session |
| DaemonTheorems.EveryUseIsFaithful | requester/spdm_session.cpp:122-146 | every stop and heartbeat of any run, shutdown included, names the context and identifier of an earlier successful start with no start or stop on that context in between |
| DaemonTheorems.EverySessionIsGreeted | requester/spdmd.cpp:163-172 | on the creation path and on the runtime path, the call after every successful start of any run is a heartbeat on that context with that identifier |
| DaemonTheorems.SessionsAreConserved | requester/spdm_session.cpp:67-137 | at the end of any run, successful starts equal stop requests plus active sessions; after shutdown they are equal and nothing is open, even when stop requests return errors |
| DaemonTheorems.ActiveSessionsAreTheirs | requester/spdm_session.cpp:99-119 | in every reachable state an active session goes by the identifier and the heartbeat period of the reply to the latest start on its context, which has not been stopped since |
| DaemonTheorems.StepOnTarget | requester/spdmd.cpp:253-363 | if its calls succeed, an event keeps the responders exactly the devices with a transport and every session on the flag, and a processing event brings them there from any reachable state |
| DaemonTheorems.RunOnTarget | requester/spdmd.cpp:253-363 | if calls succeed from a state on target, every list of events stays there |
| DaemonTheorems.SubsequenceWithTransport | requester/spdmd.cpp:106-195 | a subsequence of the devices without null transports is one of the devices that have a transport |
| DaemonHistory.RunAppend | requester/spdmd.cpp:253-363 | running two lists of events is running the second from where the first led |
| DaemonHistory.StepExtends | requester/spdmd.cpp:253-363 | every event extends the trace, with a heartbeat directly behind each successful start |
| DaemonHistory.OpenAtExtends | requester/spdmd.cpp:318-344 | opening extends the trace, with a heartbeat directly behind the start if it succeeded |
| DaemonProofs.StepKeeps | requester/spdmd.cpp:253-363 | every event keeps the invariant: legal trace, distinct live contexts, responders ready and in device order, session objects exactly the open sessions, policy respected |
| DaemonProofs.RunKeeps | requester/spdmd.cpp:253-363 | every sequence of events keeps that invariant |
| DaemonProofs.ProcessKeeps | requester/spdmd.cpp:85-198 | processing any devices keeps the invariant of the system, with responders a subsequence of these devices and sessions only if asked for |
| DaemonProofs.AddDeviceKeeps | requester/spdmd.cpp:106-195 | processing one device on an unused transport keeps the invariant and appends that device or nothing |
| DaemonProofs.MoveContext | requester/libspdm_tcp_transport.cpp:62-87 | giving an unused transport a new context, or none, keeps the invariant: no responder's context changes |
| DaemonProofs.OpenAtKeeps | requester/spdmd.cpp:318-344 | opening one responder's session keeps the invariant and every other responder |
| DaemonProofs.CloseAtKeeps | requester/spdmd.cpp:350-361 | closing one responder's session keeps the invariant, leaves it inactive, and touches no other responder |
| DaemonProofs.ServeAtKeeps | requester/component_integrity_dbus.cpp:383-428 | serving a request keeps the invariant and the open sessions |
| DaemonProofs.TearDownKeeps | requester/spdmd.cpp:60-75 | after tearing down no responder is left and no session is open |
| DaemonProofs.OpenIsActive | requester/spdm_session.cpp:75-137 | under the invariant the open sessions of the trace are as many as the active session objects |
| SpdmCalls.StartIsPrepared | requester/spdm_session.hpp:21-24 | a start anywhere in a legal trace has its preparation, anchor and certificate in front of it |
| SpdmCalls.UseIsFaithful | requester/spdm_session.cpp:122-155 | a use anywhere in a legal trace has its start in front of it, unstopped |
| SpdmCalls.MeasurementIsPrepared | requester/component_integrity_dbus.cpp:393-404 | a measurement anywhere in a legal trace has the preparation of its context, and the beginning of its own request, in front of it |
| SpdmCalls.Conservation | requester/spdm_session.cpp:67-137 | in a legal trace successful starts are stop requests plus open sessions |
| SpdmCalls.Alternation | requester/spdm_session.cpp:67-137 | at every position of a legal trace, a start finds its context without a session and a stop finds it with one, and the counts agree |
| SpdmCalls.OpenSince | requester/spdm_session.cpp:102-135 | an open session has a latest start under its identifier and no stop since |
| SpdmCalls.ConfigSets | requester/spdm_session_config.cpp:204-256 | after the configuration calls every key of the context has the value of its own configuration field, and the check comes last |
| SpdmCalls.SetUpSets | requester/libspdm_tcp_transport.cpp:138-176 | after the set-up calls every key has its default: DMTF measurements, the three NIST curves, the three SHA-2 hashes, each by its bit |
| SpdmAlgorithms.FolderOfAlgorithm | requester/spdm_session_config.cpp:107-139 | the switch maps the bit of every DSP0274 algorithm to the folder named by its family and its key size or curve |
| SpdmAlgorithms.AlgorithmOfFolder | requester/spdm_session_config.cpp:107-139 | it finds a folder exactly for the numbers that are one algorithm's bit |
| SessionSpec.OpenExtends | requester/spdmd.cpp:161-183 | opening a session, successful or not, leaves no start without the heartbeat behind it |
| SessionSpec.PrepareSucceeds | requester/spdmd.cpp:118-159 | if calls succeed, a device becomes connected on a non-null context |
| SessionSpec.OpenSucceeds | requester/spdm_dbus_responder.cpp:41-76 | if calls succeed on a non-null context, opening ends with an active session, whatever the anchor source |
| SessionSpec.PrepareKept | requester/spdmd.cpp:118-159 | initialise, configure, connect: if all succeed the new context is ready, and in every case the trace stays legal and the open sessions stay open |
| SessionSpec.InitializeKept | requester/libspdm_tcp_transport.cpp:22-60 | initialising keeps the trace legal, and on success the new context was allocated, given a scratch buffer and set up by the calls just made |
| SessionSpec.InitializeLink | requester/libspdm_tcp_transport.cpp:22-60 | the transport after every outcome, by the last call: open with a buffer after a success, as it was without a socket, open without a context after a failed allocation, closed and empty after a failed scratch buffer |
| SessionSpec.OpenKept | requester/spdm_dbus_responder.cpp:41-76 | opening on a ready context without a session opens exactly the session it reports, or none, and says which |
| SessionSpec.InstallKept | requester/spdm_session_config.cpp:266-320 | a successful install with a named anchor ends with the install of the first non-empty source |
| SessionSpec.LoadKept | requester/spdm_session_config.cpp:156-190 | a loaded anchor comes from the first non-empty source, by the reads just made; from a base directory, out of the folder of the algorithm the device negotiated |
| SessionSpec.FetchKept | requester/spdm_session.cpp:27-63 | a successful fetch is a digest reply with the slot's bit followed by the slot's certificate |
| SessionSpec.StartKept | requester/spdm_session.cpp:75-120 | starting on a ready, anchored, free context, in either key mode, opens exactly the session it reports, or none |
| SessionSpec.StartMeans | requester/spdm_session.cpp:75-120 | fields and status of a start in every case, by its last call: only a successful start makes a session, with the identifier and period replied; with a pre-shared key there is no other call |
| SessionSpec.StopKept | requester/spdm_session.cpp:122-137 | stopping closes exactly the session of that context, whatever the reply |
| SessionSpec.StopMeans | requester/spdm_session.cpp:122-137 | the status of a stop is that of its reply; without a session there is no call |
| SessionSpec.HeartbeatKept | requester/spdm_session.cpp:139-146 | a heartbeat goes to an open session or is not sent |
| SessionSpec.HeartbeatMeans | requester/spdm_session.cpp:139-146 | the status of a heartbeat is that of its reply; without a session it is an error |
| SessionSpec.CallAllKept | requester/spdm_session_config.cpp:194-264 | calls made until one fails: success means every one was made and succeeded, in order |
| SpdmObjects.Transport.Initialize | requester/libspdm_tcp_transport.cpp:22-60 | all fields and calls: an open socket is used again; new context exactly when socket, allocation and scratch buffer succeed; old context kept without a socket; a failed scratch buffer cleans up everything, a failed allocation only the context |
| SpdmObjects.Transport.CreateSocket | requester/tcp_helper.hpp:210-215 | no call when the socket is open, else one, and the socket is open iff it succeeds |
| SpdmObjects.Transport.AllocateContext | requester/libspdm_tcp_transport.cpp:62-87 | the context becomes the new allocation, or null |
| SpdmObjects.Transport.SetUpScratchBuffer | requester/libspdm_tcp_transport.cpp:114-136 | one allocation for the context; the buffer is there iff it succeeds |
| SpdmObjects.Transport.CleanupContext | requester/libspdm_tcp_transport.cpp:178-193 | no scratch buffer, no context, no open socket |
| SpdmObjects.Transport.ConfigureContext | requester/libspdm_tcp_transport.cpp:138-176 | the set-up calls in order, whatever the replies |
| SpdmObjects.ApplySecureSessionConfig | requester/spdm_session_config.cpp:194-264 | makes the configuration calls in the specified order, stopping at the first failure; version and flags are noted in the transport when, and only when, their own call has succeeded |
| SpdmObjects.ConfiguredLink | requester/spdm_session_config.cpp:82-104 | configuring changes nothing of the transport but the version and flags noted, both to the configured ones on success |
| SpdmObjects.ApplyVersionConfig | requester/spdm_session_config.cpp:82-104 | no call for version 0, else one, with its outcome; the version is noted when it succeeded |
| SpdmObjects.ApplyAlgorithms | requester/spdm_session_config.cpp:220-263 | the algorithm calls and the final check in order, stopping at the first failure |
| SpdmObjects.LoadPeerRootCert | requester/spdm_session_config.cpp:156-190 | blob before path before folder of the negotiated algorithm; none when the file is empty or the algorithm unknown |
| SpdmObjects.InstallPeerRootCert | requester/spdm_session_config.cpp:266-320 | fails when a named anchor cannot be loaded, succeeds without a call when none is named, else installs |
| SpdmObjects.FetchPeerCert | requester/spdm_session.cpp:27-63 | digest, then the slot test, then the certificate, stopping at the first failure |
| SpdmObjects.SpdmSession.Start | requester/spdm_session.cpp:75-120 | new fields, calls and result for null contexts, active sessions, both key modes and every reply |
| SpdmObjects.SpdmSession.Stop | requester/spdm_session.cpp:122-137 | one stop request if active, inactive afterwards even on an error |
| SpdmObjects.SpdmSession.Destroy | requester/spdm_session.cpp:67-73 | the destructor does what a stop does |
| SpdmObjects.SpdmSession.Heartbeat | requester/spdm_session.cpp:139-146 | one heartbeat on the session's context if active, else an error and no call |
| SpdmObjects.SpdmSession.KeyUpdate | requester/spdm_session.cpp:148-155 | one key update on the session's context if active, else an error and no call |
| SpdmResponder.SPDMDBusResponder.OpenSecureSession | requester/spdm_dbus_responder.cpp:41-76 | anchor, then session object, then start, with every early return |
| SpdmResponder.SPDMDBusResponder.CloseSecureSession | requester/spdm_dbus_responder.cpp:78-85 | stops the session if there is one |
| SpdmResponder.SPDMDBusResponder.SendHeartbeat | requester/spdm_dbus_responder.cpp:87-96 | heartbeat of an active session, else an error and no call |
| SpdmResponder.SPDMDBusResponder.OpenAndGreet | requester/spdmd.cpp:320-343 | opening with the heartbeat that follows a success, the same lines on the creation path and the runtime path |
| DaemonObject.Daemon.TearDownResponders | requester/spdmd.cpp:60-75 | closes active sessions in order, then destroys all responders |
| DaemonObject.Daemon.AddResponder | requester/spdmd.cpp:106-195 | one turn of the loop, with every `continue` and the exception of the constructor |
| DaemonObject.Daemon.ProcessDiscoveredDevices | requester/spdmd.cpp:85-198 | tear down, then one turn per device, for any devices |
| DaemonObject.Daemon.OnDiscovered | requester/spdmd.cpp:253-271 | the state after the discovery callback |
| DaemonObject.Daemon.EnabledChanged | requester/spdmd.cpp:275-294 | processing on a rise, tear down on a fall |
| DaemonObject.Daemon.SecureSessionEnabledChanged | requester/spdmd.cpp:299-363 | nothing while not enabled; opens every inactive session on a rise, closes every active one on a fall |
| DaemonObject.Daemon.ServeRequest | requester/component_integrity_dbus.cpp:383-428 | a request on the object of a listed responder: the calls and texts of `Serve` on its context |
| DaemonObject.Daemon.SetEnabledProperty | requester/policy_manager.hpp:36-48 | stores the value, notifies only on a change, and returns whether the value was the same |
| DaemonObject.Daemon.SetSecureSessionEnabledProperty | requester/policy_manager.hpp:55-69 | the same for the second property |
| DaemonObject.Daemon.ShutDown | requester/spdmd.cpp:367-376 | destroys all responders |
| DaemonObject.Daemon.HandleAll | requester/spdmd.cpp:253-376 | any list of events, then shutdown, leaves the state `Shutdown(Run(...))` the theorems speak of |
| TcpStream.ReceivedIsPrefix | requester/tcp_helper.hpp:79-486 | for any two plans and messages, what was received is a prefix of what was sent, in order, and the bytes taken from the stream are exactly its frames and, after a failure inside the next frame, a proper part of that one |
| TcpStream.EverythingArrives | requester/tcp_helper.hpp:79-486 | all messages arrive iff the sender's plan lets all their frames out and the receiver's lets all of them in, however cut and interrupted; then no byte is lost and none is left |
| TcpStream.ReceivedCount | requester/tcp_helper.hpp:79-486 | exactly how many messages arrive, for any two plans: as many as the receiver's plan lets in of those the sender's let out |
| TcpStream.TurnsDeliver | requester/tcp_helper.hpp:350-480 | a plan with one progressing call per byte lets out, and lets in, all messages of at most 65536 bytes |
| TcpStream.MessageLimit | requester/tcp_helper.hpp:442-446 | 65536 bytes are let in by a plan with enough turns, more by none |
| TcpStream.SteadyReceiving | requester/tcp_helper.hpp:383-486 | a plan without failures or empty transfers delivers all messages of at most 65536 bytes or is used up |
| TcpStream.SteadySending | requester/tcp_helper.hpp:339-375 | a plan without failures or empty transfers sends everything or is used up |
| TcpStream.NextAttempt | requester/tcp_helper.hpp:383-486 | a receiver that failed without losing a byte and tries again, on any plan, goes on with the next messages sent and gets no others |
| TcpStream.ReceiverBoundary | requester/tcp_helper.hpp:383-486 | a receiver that has failed goes on at the boundary of a frame iff it has lost no byte |
| TcpStream.SenderBoundary | requester/tcp_helper.hpp:339-375 | a sender that has failed goes on at the boundary of a frame iff the wire holds whole frames |
| TcpStream.MisreadAfterLoss | requester/tcp_helper.hpp:425-450 | otherwise the next message received can be one nobody sent: after twelve lost bytes, [7] out of the frame of [7] sent as a message |
| TcpStream.MisreadAfterPartialSend | requester/tcp_helper.hpp:350-371 | and so for a sender: after twelve bytes of the frame of [1, 2], the frame of [7] is received as [0, 0] |
| TcpStream.LaterMessages | requester/tcp_helper.hpp:339-375 | what later messages leave on the wire is what a sender of them alone could have left |
| TcpStream.SentFrames | requester/tcp_helper.hpp:79-375 | the wire holds exactly as many whole frames as the plan lets out, and of the first message that failed a proper prefix of its frame |
| TcpStream.ReadOneFrame | requester/tcp_helper.hpp:383-486 | at a frame boundary a read takes exactly that frame iff the plan lets header and payload in and the message has at most 65536 bytes, and otherwise fewer bytes |
| TcpStream.ReadCutFrame | requester/tcp_helper.hpp:383-486 | a frame cut short is never read |
| TcpStream.ChunkingIndependence | requester/tcp_helper.hpp:383-486 | two plans that succeed on one stream read the same buffer, a prefix of it, and leave the same remainder |
| TcpStream.ReceiversAgree | requester/tcp_helper.hpp:383-486 | on any stream, two receivers with unrelated plans get lists of which one is a prefix of the other, and after equally many messages face the same remainder |
| TcpStream.ReadThenDecode | requester/tcp_helper.hpp:118-163 | after a successful read, decode fails only on the transport type, and its size sum fits 32 bits |
| TcpStream.TransferMoves | requester/tcp_helper.hpp:350-371 | a retry loop moves the least of what is wanted, present and schedulable, and succeeds iff that is all that is wanted |
| TcpStream.TurnsSuffice | requester/tcp_helper.hpp:398-480 | one progressing call per byte suffices, and no more are used up |
| TcpStream.TransferFits | requester/tcp_helper.hpp:398-480 | how many more bytes exist than are wanted makes no difference to a retry loop |
| TcpFrame.DecodesTo | requester/tcp_helper.hpp:118-176 | a buffer decodes to a message iff it starts with a header for it, of the TCP type and any command, and then the message |
| TcpFrame.DecodeOfFrame | requester/tcp_helper.hpp:79-176 | an encoded message decodes to itself, whatever follows |
| TcpFrame.FrameNumbers | requester/tcp_helper.hpp:82-106 | a frame reads, most significant byte first, command 1, transport type 3, the length, and then the message |
| TcpFrame.DecodeNumbers | requester/tcp_helper.hpp:121-175 | decoding by the numbers in the buffer: type 3 at byte 4, length at byte 8, both most significant byte first |
| TcpFrame.HeaderFields | requester/tcp_helper.hpp:89-143 | three header words are read back as written |
| TcpFrame.HeaderOfFields | requester/tcp_helper.hpp:128-143 | any twelve bytes are the header of the words read from them |
| TcpIo.TcpMessageTransport.Encode | requester/tcp_helper.hpp:79-109 | the buffer is the frame of the message |
| TcpIo.TcpMessageTransport.Decode | requester/tcp_helper.hpp:118-176 | status and message for every buffer, malformed ones included |
| TcpIo.TcpIoClass.Write | requester/tcp_helper.hpp:339-375 | appends to the wire what the plan lets through, the whole buffer iff it succeeds |
| TcpIo.TcpIoClass.Fill | requester/tcp_helper.hpp:398-423 | the bytes received are the next of the stream, written at their place and nowhere else |
| TcpIo.TcpIoClass.Read | requester/tcp_helper.hpp:383-486 | status, buffer, stream and plan after reading one frame, all failures included |
| TcpIo.SpdmTcpTransport.DeviceSendMessage | requester/libspdm_tcp_transport.cpp:195-260 | one send callback is one step of sending messages |
| TcpIo.SpdmTcpTransport.DeviceReceiveMessage | requester/libspdm_tcp_transport.cpp:262-322 | one receive callback is one step of receiving messages; after a failure the stream has lost the bytes of that attempt |
| TcpIo.SpdmTcpTransport.SendAll | requester/libspdm_tcp_transport.cpp:195-260 | send callbacks one after another leave on the wire what `SendMessages` says, for any list of messages |
| TcpIo.SpdmTcpTransport.ReceiveAll | requester/libspdm_tcp_transport.cpp:262-322 | receive callbacks one after another get what `ReceiveMessages` says, and leave the stream as it says |
| Mctp.Loopback | requester/mctp_helper.hpp:179-405 | the datagram carries the message without its type byte; coming back it decodes iff the source is the endpoint, and to the message iff that also starts with 5; header bytes 8 and the endpoint, then 1, the source and 5 |
| Mctp.MctpMessageTransport.Encode | requester/mctp_helper.hpp:179-190 | tag owner, endpoint, message |
| Mctp.MctpMessageTransport.Decode | requester/mctp_helper.hpp:201-230 | status and message for every buffer |
| Mctp.MctpIoClass.WriteToSocket | requester/mctp_helper.hpp:337-366 | sends all but three bytes to the endpoint named by the second |
| Mctp.MctpIoClass.ReadFromSocket | requester/mctp_helper.hpp:378-413 | takes the next datagram and prepends type tag, source and type; on failure takes none |
| Base64.Base64Encode | requester/utils.cpp:78-114 | the loop and its tail compute the recursive RFC 4648 encoding |
| Base64.DecodeEncode | requester/utils.cpp:78-114 | the strict decoder inverts the encoder on every byte string |
| Base64.EncodeDecode | requester/utils.cpp:78-114 | a text the strict decoder accepts is what the encoder prints for its bytes |
| Base64.EncodeInjective | requester/utils.cpp:78-114 | different bytes have different texts |
| Base64.EncodeLength | requester/utils.cpp:78-114 | the text has 4 * ceil(n / 3) characters |
| Base64.TestVectors | requester/utils.cpp:78-114 | the texts of RFC 4648, section 10 |
| Base64.JoinCut | requester/utils.cpp:86-112 | sextets cut from bytes join to those bytes |
| Base64.ShiftAndMask | requester/utils.cpp:88-92 | the shifts and masks on the 24-bit word select the four sextets |
| DerChain.GetCertIsNth | requester/component_integrity_dbus.cpp:441-447 | looking up by index gives the list of certificates, and fails exactly past its end |
| DerChain.OffsetStep | requester/component_integrity_dbus.cpp:437-489 | the running offset is the length of the certificates so far, grows with each, and reaches the end of the input only past the last |
| DerChain.CertsTile | requester/component_integrity_dbus.cpp:437-449 | the certificates tile a prefix of the input, and what follows starts none |
| DerChain.CertsOfFlatten | requester/component_integrity_dbus.cpp:437-449 | concatenated certificates are found again, and trailing undecodable bytes leave them intact |
| DerChain.LengthOfSequence | requester/component_integrity_dbus.cpp:441-442 | the walker finds the length that an X.690 encoder of its own has written for any content, whatever follows |
| DerChain.CertIsSequence | requester/component_integrity_dbus.cpp:441-442 | the certificates of the walker are exactly the encodings of SEQUENCEs |
| DerChain.CertsOfSequences | requester/component_integrity_dbus.cpp:437-449 | encoded contents put one behind another are found again, whatever undecodable bytes follow |
| PemChain.ParsePrint | requester/component_integrity_dbus.cpp:480-487 | the strict RFC 7468 parser, which reads any label out of the text, reads a printed chain back exactly, as blocks labelled CERTIFICATE |
| PemChain.PrintParse | requester/component_integrity_dbus.cpp:480-487 | a text of CERTIFICATE blocks the strict parser accepts, with any of the three line ends of RFC 7468, is the printed form of what it reads iff it holds no carriage return |
| PemChain.CertificateBoundaries | requester/component_integrity_dbus.cpp:485-486 | the two lines printed are the encapsulation boundaries of a CERTIFICATE, and no other lines are |
| PemChain.FoldIsStrict | requester/component_integrity_dbus.cpp:480-484 | the wrapped lines are 64 characters long, the last at most, and join to the base64 text |
| PemChain.StrictIsFold | requester/component_integrity_dbus.cpp:480-484 | strictly wrapped lines are the wrapping of their joined text |
| Attestation.ChainRoundTrip | requester/component_integrity_dbus.cpp:430-492 | any contents, encoded as SEQUENCEs and put one behind another, walked and printed, parse to those SEQUENCEs, whatever undecodable bytes follow |
| Attestation.ComponentIntegrity.DerCertsToPem | requester/component_integrity_dbus.cpp:430-492 | the text parses to exactly the certificates found, and the second result is the last of them |
| Attestation.ComponentIntegrity.GetCertificate | requester/component_integrity_dbus.cpp:501-557 | the chain behind four bytes and the root hash, as text, raw and leaf; fails iff the reply fails or is shorter |
| Attestation.ChainOf | requester/component_integrity_dbus.cpp:542-556 | four bytes, the root hash, certificates and undecodable bytes: exactly these certificates are found and printed, and the leaf is the last of them |
| Attestation.ComponentIntegrity.ValidateSpecialValueCombinations | requester/component_integrity_dbus.cpp:99-140 | 0 and 255 do not meet, and neither meets a regular index |
| Attestation.ComponentIntegrity.ValidateRegularIndices | requester/component_integrity_dbus.cpp:142-158 | every index is in 1..254 |
| Attestation.ComponentIntegrity.CheckForDuplicateIndices | requester/component_integrity_dbus.cpp:160-174 | no index occurs twice |
| Attestation.ComponentIntegrity.ValidateMeasurementIndices | requester/component_integrity_dbus.cpp:60-97 | accepts exactly the empty list, [0], [255] and the duplicate-free lists in 1..254 |
| Attestation.ComponentIntegrity.InitializeSpdmConnection | requester/component_integrity_dbus.cpp:180-204 | fails without a transport or context, else makes the connection call |
| Attestation.ComponentIntegrity.GetCertificateDigests | requester/component_integrity_dbus.cpp:210-257 | the slots, their digests, and 48 bytes for each slot, which the limit of the buffer never cuts; an error without transport or context |
| Attestation.ComponentIntegrity.GetSingleMeasurement | requester/component_integrity_dbus.cpp:317-350 | one measurement call with index and slot narrowed to eight bits; its content and number of blocks |
| Attestation.ComponentIntegrity.ProcessMeasurementData | requester/component_integrity_dbus.cpp:352-375 | index 0 contributes nothing, any other index its data at the end |
| Attestation.ComponentIntegrity.GetSignedMeasurements | requester/component_integrity_dbus.cpp:266-315 | makes the requests in order up to the first refusal and succeeds iff there is none; decoding the text gives the replies in request order; at most 4 * ceil(254 * 4096 / 3) characters for an acceptable request; whatever the nonce |
| Attestation.ComponentIntegrity.MethodCall | requester/component_integrity_dbus.cpp:383-428 | both texts for exactly the served requests, two empty ones otherwise, within the bound; an unacceptable request makes no device call; whatever the nonce |
| Attestation.ServeMeans | requester/component_integrity_dbus.cpp:383-428 | the calls and texts specified for the method answer exactly the served requests; the texts parse and decode to the certificates and the collected replies, within the bound |
| Attestation.ServedChain | requester/component_integrity_dbus.cpp:400-418 | so it is for the text of a served request |
| Attestation.CollectedIs | requester/component_integrity_dbus.cpp:286-305 | index 0 collects nothing, an empty request asks for 255 and collects its reply, regular indices collect every reply in order |
| Attestation.SlotNarrowing | requester/component_integrity_dbus.cpp:501-520 | the slot asked for is the one requested iff it is below 256; any other request is answered as the one for its remainder, 256 as 0 |
| Attestation.CallAllAnswered | requester/component_integrity_dbus.cpp:393-405 | calls made until one fails: all of them iff all are answered, otherwise the last one made was not |
| Attestation.AcceptedCount | requester/component_integrity_dbus.cpp:60-174 | at most 254 indices, each at most 255, in an accepted request |
| Attestation.DistinctCount | requester/component_integrity_dbus.cpp:160-174 | a list has as many elements as its set iff it is duplicate-free |
| Attestation.RequestsExact | requester/component_integrity_dbus.cpp:317-336 | the narrowing of an accepted index loses nothing |
| Attestation.ResultBound | requester/component_integrity_dbus.cpp:266-315 | the text of an accepted request has at most 4 * ceil(254 * 4096 / 3) characters |

## Left out

- TcpStream.EverythingArrives: a plan is finite, and a used-up plan is a failure, so a socket that interrupts forever is not modelled; the loops of the source would not return then.
- TcpIo.TcpIoClass.Fill: one member for the two receive loops of `read`, which differ only in the buffer position and the log texts; the header buffer is copied into the whole one as in the source.
- TcpIo.TcpIoClass.Read: after a failure inside the payload the source leaves its buffer resized and partly filled, the model an empty one; the callers of both drop it.
- TcpIo.TcpMessageTransport.Decode: allocation of the message is assumed to succeed.
- TcpIo.TcpMessageTransport.Encode: the header keeps 32 bits of the length as the code does; the round trips exclude messages of 2^32 bytes or more.
- Mctp.MctpMessageTransport.Decode: allocation of the message is assumed to succeed.
- Mctp.MctpIoClass.WriteToSocket: needs the three bytes it strips, so empty MCTP messages are excluded.
- DerChain.GetCert: stands for the libspdm call `libspdm_x509_get_cert_from_cert_chain`, whose code is not part of this model; it is taken to accept exactly definite-length DER SEQUENCEs with minimal lengths.
- SpdmObjects.Transport.Initialize: the TCP transport's, with a fresh socket as one call; the MCTP transport leaves a non-null context behind when `libspdm_init_context` fails, and heap ownership of contexts (an old one is overwritten, not freed) is left out in both.
- SpdmObjects.SpdmSession.Start: a failed `libspdm_start_session` is taken to leave the identifier unchanged and the heartbeat period at zero; neither is read before the next start.
- TcpIo.SpdmTcpTransport.SendAll, TcpIo.SpdmTcpTransport.ReceiveAll: the loops stand for libspdm, which calls the callbacks one by one.
- Attestation.ComponentIntegrity.GetCertificateDigests: the digests are what the reply holds; the source's buffer always has 384 bytes, of which the returned size counts the used ones.
- Attestation.ComponentIntegrity.MethodCall: returns the two texts only; object path, algorithm names and version string are left out, and so are failures of the certificate object behind a non-empty text.
- The effect of the repeated `libspdm_init_connection` in `method_call` on a session that is open at that moment lies inside libspdm; nothing is claimed about it.
- SpdmObjects.Transport.ConfigureContext: the supported algorithms are the constants the transport starts with; nothing in the repository changes them.
- The hash size of a connection comes with the certificate reply; the source reads it from the context right after.
- `SpdmSession::send`, and `keyUpdate` within a run, because the daemon never calls them.
- Events are atomic, as in a single-threaded event loop: no callback runs inside another.
- Distinct devices have distinct transports, as discovery builds them (requester/mctp_transport_discovery.cpp:115, requester/tcp_transport_discovery.cpp:153), and a newly discovered transport has not been used yet.
- Socket creation, `poll`, timeouts and `errno` texts; a timeout is a failure.
- The policy file; the initial flags are arbitrary.
- D-Bus objects, coroutines, signal handling and logging.
- Discovery filtering, algorithm-name switches, buffer acquire and release flags: short code with easy properties.
- OpenSSL parsing in `certificate_dbus.cpp`, cryptography, and the stand-alone client `spdm_simple_client.cpp`, whose frame format differs.
