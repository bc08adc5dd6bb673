# openomada-agent: a verified model of the agent

The agent makes an OpenWrt access point manageable by an Omada controller. This project models its
hard core in Dafny and proves what the code is for. It is self-contained: `dafny verify dfyconfig.toml`
checks every file.

## Reading order

- **Compiling configuration to UCI** (`UciNaming`, `UciText`, `UciStore`, `UciPlan`, `UciTargets`, `UciCorrectness`,
  `UciBatch`, `UciReconciler`). A desired configuration is compiled to `delete`, `set` and `commit` commands.
  Commands have a meaning over a store with staged and committed copies; `Intended` states, without
  commands, what a configuration asks of each section. The plan reaches it from every store, can be
  repeated or retried after stopping anywhere, keeps to its frame, and survives being printed and parsed
  exactly when no newline reaches it through a free text.
- **The wire** (`FrameCodec`, `FrameTransport`). Length framing and the short-read loop give back every
  list of payloads, however the bytes are split, exactly when no timeout tears a frame.
- **The session** (`Protocol`, `Adoption`, `AdoptionProperties`, `Appliers`, `ManagedRequests`,
  `SessionRuns`). The controller, the appliers and the success of each send are oracles. `Handshake`
  and `Handle` say what happens; the methods are proved to do it, and the lemmas say what it is worth.
- **Living through a crash** (`JsonText`, `Persistence`, `InformSchedule`, `StateDocuments`, `ManagedLoop`,
  `LoopEnds`, `LoopProperties`, `Restart`, `Daemon`, `DaemonProperties`). The loop that sends informs, serves requests and keeps the
  state file is proved against `Rounds`. At every head of it the file and the memory agree, so a
  restart takes up the version last acknowledged, and over any number of turns of the daemon every
  session numbers its messages from 1 without a gap.
- **Clients and telemetry** (`OrderedMap`, `Clients`, `Telemetry`, `TelemetryReports`, `TelemetryProperties`). The
  map-based loops are compared with folds; counters are conserved exactly as far as the code's
  printing and re-reading allows.
- **The portal** (`PortalPolicy`, `PortalHosts`, `ShellQuoting`, `OpenNds`, `OpenNdsProperties`). Rules to lists, lists
  to a plan, the plan to the running daemon, and nothing half-way.
- `Basics`, `Text`, `Mac` and `Config` hold the integer widths, decimal printing, MAC addresses and
  the parsed configuration records.

A loop of the source is a method with a loop, proved against a function; an object it updates is a
class. What the environment does (bytes arriving, sends, file operations, clock readings, appliers,
commands that fail) is a parameter, so that a theorem holds for whatever it does. Fixed-width fields
are subset types and every wrap, cast or saturation of the source is written out.

## Model

| member | source | states |
|---|---|---|
| UciNaming.Slug | src/openwrt/uci.cpp:34-55 | the loop of `slug`, ends with the text `SlugOf` defines by recursion |
| UciNaming.SlugImage | src/openwrt/uci.cpp:34-55 | `slug` yields exactly the texts it leaves alone (lower-case words joined by single underscores, none at the ends); hence it is idempotent |
| UciNaming.ComputeWlanSection | src/openwrt/uci.cpp:57-77 | the imperative section name, with its truncation loop, is `WlanSection` |
| UciNaming.WlanSectionShape | src/openwrt/uci.cpp:57-77 | every section name has 1 to 48 characters of [a-z0-9_], starts with `openomada_` and its band, and ends in no underscore |
| UciNaming.IndexedSectionsDistinct | src/openwrt/uci.cpp:57-77 | two indexed WLANs share a section name exactly when band and index agree, over all 64-bit indexes |
| UciNaming.SignedDigitsInjective | src/openwrt/uci.cpp:59-69 | printing an index and slugging it loses nothing: minus signs stay distinguishable |
| UciText.QuoteUciLoop | src/openwrt/uci.cpp:79-92 | the quoting loop computes `QuoteUci` |
| UciText.QuoteRoundTrip | src/openwrt/uci.cpp:79-105 | a text is a closed quoted value of `v` exactly when it is `quote_uci(v)` and the closing quote |
| UciText.QuoteInjective | src/openwrt/uci.cpp:79-92 | different values have different quotations |
| UciText.CommandRoundTrip | src/openwrt/uci.cpp:94-105 | a command line with names free of dot and equals sign reads back as its command, whatever the value |
| UciText.CommandTextInjective | src/openwrt/uci.cpp:94-105 | distinct commands have distinct lines |
| UciText.RenderUciBatch | src/openwrt/uci.cpp:417-424 | the rendering loop joins the lines, each closed by a newline |
| UciText.BatchRoundTrip | src/openwrt/uci.cpp:417-424 | splitting a rendered batch at newlines gives the list back exactly when no line holds a newline |
| UciText.CommandCount | src/openwrt/process.cpp:135-158 | the offset/count scan counts the lines that are not blank |
| UciText.CountRendered | src/openwrt/process.cpp:135-158 | for newline-free, non-blank commands the count is the length of the list |
| UciStore.RunSection | src/openwrt/uci.cpp:349-415 | running commands on a store is, section by section, running those that name the section |
| UciStore.DeleteForgets | src/openwrt/uci.cpp:218-219 | once a run deletes a section, its earlier content no longer matters |
| UciStore.SetsOverride | src/openwrt/uci.cpp:153-169 | a run that only sets options of a section keeps all others and ends with the last value of each |
| UciStore.SectionReplay | src/openwrt/uci.cpp:349-415 | a run that deletes what it creates is, section by section, the same twice as once |
| UciStore.SettledInSync | src/openwrt/uci.cpp:383-411 | a package committed after its last change has staged equal to committed |
| UciStore.UncommittedKept | src/openwrt/uci.cpp:383-411 | a package the run does not commit keeps its committed copy |
| UciStore.RunReplay | src/openwrt/uci.cpp:349-415 | a batch with both disciplines has, run twice, the effect of one run on the whole store |
| UciStore.RunRetry | src/openwrt/uci.cpp:349-415 | such a batch, run in whole after any leading part of it, has the effect of the batch alone |
| UciPlan.ValidateUpdate | src/openwrt/uci.cpp:283-347 | the validation loops collect exactly the listed errors, without duplicates, in order |
| UciPlan.AcceptsExactlyAdmissible | src/openwrt/uci.cpp:283-347 | no error is reported exactly when every radio, active WLAN and management VLAN asks only for what the capabilities offer |
| UciPlan.ReportsExactly | src/openwrt/uci.cpp:283-347 | an error is reported exactly when the update lacks what the error names, and none is reported twice |
| UciPlan.WarnsExactly | src/openwrt/uci.cpp:361-366 | a warning is given exactly when WLANs are dropped, and says how many were asked for and applied |
| UciPlan.BuildUciPlan | src/openwrt/uci.cpp:349-415 | the plan is accepted exactly for admissible updates; its lines are the texts of `PlanCommands`, in order; a refusal carries the errors and no command |
| UciTargets.RadioIsNamed | src/openwrt/uci.cpp:17-31 | a radio is named by its id, or without one by the place of its band among 2g, 5g, 5g2, 6g |
| UciTargets.ModeIsNamed | src/openwrt/uci.cpp:107-119 | the mode of a width is HT, VHT or HE with the least of 20, 40 and 80 MHz that covers it, or the width itself beyond |
| UciTargets.NetworkIsNamed | src/openwrt/uci.cpp:206-222 | a WLAN is on the section of its VLAN when the platform offers VLANs, and on the LAN otherwise |
| UciTargets.ManagementIsSettled | src/openwrt/uci.cpp:182-204 | the management interface gets the configured device, or device, dot and id when its VLAN is enabled, and nothing when a part is missing |
| UciCorrectness.PlanReachesIntended | src/openwrt/uci.cpp:349-415 | compilation correctness: from any store, every section ends as `Intended` says, which mentions no command and names radios, networks, modes and devices by bands, ids and widths (`UciTargets`) |
| UciCorrectness.ActiveWlanConfigured | src/openwrt/uci.cpp:206-244 | an active WLAN whose section no later one reuses has exactly its own options and no leftovers |
| UciCorrectness.IndexedWlansConfigured | src/openwrt/uci.cpp:57-77 | WLANs with distinct band and index are all configured, none displaced |
| UciCorrectness.DroppedWlanAbsent | src/openwrt/uci.cpp:401-403 | a WLAN beyond capacity has no section exactly when no active WLAN owns the name |
| UciCorrectness.ConfiguredExactly | src/openwrt/uci.cpp:206-244 | an active WLAN ends configured as itself exactly when the last active WLAN with its section name asks for the same options |
| UciCorrectness.AllConfiguredExactly | src/openwrt/uci.cpp:206-244 | all active WLANs end configured as themselves exactly when those that share a section name ask for the same options |
| UciCorrectness.NamedWlanDisplacesIndexed | src/openwrt/uci.cpp:57-77 | the uniqueness of indexes does not extend to names: a WLAN named after the index of another takes over its section |
| UciCorrectness.PlanDiscipline | src/openwrt/uci.cpp:349-415 | a plan deletes what it creates, and commits each package it writes after the last write |
| UciCorrectness.PlanReplay | src/openwrt/uci.cpp:349-415 | running a plan twice is running it once |
| UciCorrectness.PlanRetry | src/openwrt/uci.cpp:349-415 | running the whole plan after any leading part of it gives the store of the plan alone |
| UciCorrectness.PlanCommitted | src/openwrt/uci.cpp:383-411 | a plan that wrote leaves wireless, and network if written, committed as staged, and every other package as committed before |
| UciCorrectness.PlanFrame | src/openwrt/uci.cpp:153-204 | outside the agent's sections a plan creates and removes nothing and writes only the four radio options, `disabled` of default sections and the management device |
| UciBatch.TextOneLine | src/openwrt/uci.cpp:94-105 | the text of a command is one line exactly when its fields are |
| UciBatch.BatchMeansCommands | src/openwrt/uci.cpp:417-424 | a rendered batch of encodable commands decodes to the commands and is counted exactly |
| UciBatch.PlanEncodable | src/openwrt/uci.cpp:349-415 | every command of a plan is encodable as one line when the free texts that reach the plan are safe: names and used keys of active WLANs, and the management texts if written |
| UciBatch.PlanLinesExactly | src/openwrt/uci.cpp:153-204 | every text of a plan is one line exactly when those free texts hold no newline |
| UciBatch.PlanTextExactly | src/openwrt/uci.cpp:271-272 | the text handed to the tool decodes to the plan exactly when those free texts hold no newline and the management interface, if written, is a plain name |
| UciBatch.PlanTextReachesIntended | src/openwrt/uci.cpp:271-272 | the text of a plan with safe texts, decoded and run, leaves every section as intended |
| UciBatch.TextLeavesFrame | src/application/configuration.cpp:161-175 | the condition is needed: a name of two lines within the 32 bytes the agent accepts makes the decoded text delete a section the plan itself keeps |
| UciReconciler.UciExecutor.ApplyBatch | src/openwrt/process.cpp:325-331 | an empty batch is not run; otherwise it is run once, and the store moves by the decoded commands, all of them after a success and the leading ones that completed after a failure |
| UciReconciler.OpenWrtUciReconciler.Apply | src/openwrt/uci.cpp:254-281 | an inadmissible update touches nothing; otherwise there is one batch, the radios are reloaded only after it took, success is exactly both working, and the store moves by what was sent, which is the plan exactly when the free texts are safe |
| FrameCodec.BigEndianRoundTrip | src/protocol/frame_codec.cpp:5-31 | the four length bytes give back every 32-bit length |
| FrameCodec.DecodesExactlyEncodings | src/protocol/frame_codec.cpp:17-51 | a frame is accepted exactly when it is the encoding of the payload returned, which is not empty and within the limit |
| FrameCodec.RefusesExactly | src/protocol/frame_codec.cpp:17-51 | which error a refused frame gets, exactly, and the declared and actual sizes reported |
| FrameCodec.FrameRoundTrip | src/protocol/frame_codec.cpp:5-51 | decoding an encoded payload succeeds, with the payload, exactly for sizes 1 to the limit |
| FrameTransport.TlsFrameTransport.ReadExact | src/transport/tls_client.cpp:30-63 | the short-read loop fills exactly its part of the buffer with the next bytes of the link, or reports the timeout or failure it met |
| FrameTransport.TlsFrameTransport.ReceivePayload | src/transport/tls_client.cpp:151-194 | prefix, length check, body and decoding, as `Receive` defines them on the byte stream |
| FrameTransport.TlsFrameTransport.WriteAll | src/transport/tls_client.cpp:65-85 | the write loop puts a prefix on the wire, all of it exactly when it reports success; a blocked write is repeated |
| FrameTransport.TlsFrameTransport.SendPayload | src/transport/tls_client.cpp:139-149 | a reported success put exactly one whole frame on the wire |
| FrameTransport.WritesUntilBroken | src/transport/tls_client.cpp:65-85 | writing goes on while calls make progress or block, and stops short only at a closed or broken connection |
| FrameTransport.BadLengthFails | src/transport/tls_client.cpp:166-174 | a length prefix of 0 or more than 8 MiB ends the call with nothing more read |
| FrameTransport.StreamRoundTrip | src/transport/tls_client.cpp:151-194 | for payloads of legal size and any splitting into short reads without a timeout inside a frame, the successful receives give the payloads back in order |
| FrameTransport.StreamExactly | src/transport/tls_client.cpp:151-194 | for every splitting and timing, n receive calls deliver all payloads in order exactly when no timeout falls inside a frame and at least as many calls as payloads do not time out |
| FrameTransport.TornFramesCost | src/transport/tls_client.cpp:37-45 | the frames of the payloads received, and one byte more once a frame was torn, fit in the bytes that were sent |
| FrameTransport.StreamComplete | src/transport/tls_client.cpp:151-194 | without timeouts, as many receive calls as payloads return them one by one |
| FrameTransport.TornFrameIsLost | src/transport/tls_client.cpp:37-45 | a torn frame in the small: a timeout inside a frame loses the bytes already read |
| Mac.Parse | src/domain/mac_address.cpp:31-55 | the two parsing loops accept exactly the texts with twelve hex digits and pack them |
| Mac.Print | src/domain/mac_address.cpp:57-81 | the printing loop, for both separators and cases |
| Mac.MacRoundTrip | src/domain/mac_address.cpp:31-81 | both printed forms parse back to the address |
| Mac.NormalizedInjective | src/domain/mac_address.cpp:57-68 | equal normalized texts are equal addresses |
| Mac.NormalizedOrder | src/domain/mac_address.cpp:57-68 | the order of normalized texts is the order of the bytes |
| Protocol.HeaderNumbers | src/protocol/json.cpp:87-112 | type and sequence number are cut to 32 bits and absent when negative; the error code is cut to 32 bits with a sign |
| Adoption.ReceiveUntil | src/lifecycle/adoption.cpp:31-54 | the bounded receive loop is `Await` with nine calls |
| Adoption.Exchange | src/lifecycle/adoption.cpp:56-74 | one send and, if it went out, the wait for its reply, each with the outcome of the whole handshake when it ends there |
| Adoption.RunInitialSync | src/lifecycle/adoption.cpp:133-331 | result, messages sent, sends tried and messages received are those of `Handshake`, for every controller and every pattern of send failures |
| AdoptionProperties.SendsScriptPrefix | src/lifecycle/adoption.cpp:146-317 | the messages sent are a prefix of the fixed five, numbered 1 to 5, with the contents the settings determine |
| AdoptionProperties.DeviceProvesItself | src/lifecycle/adoption.cpp:188-228 | the second message carries the proof over the random key of an accepted first reply, for the configured user or else the one that reply names, and the key the controller is to prove itself with |
| AdoptionProperties.VerifiedBeforeResult | src/lifecycle/adoption.cpp:235-268 | the third message goes only to a controller whose accepted second reply carries the expected proof, up to letter case |
| AdoptionProperties.SucceedsExactly | src/lifecycle/adoption.cpp:133-331 | success exactly when all five sends work, all five replies are free of error, the first one and the settings have a key of 36 characters, a user, a password, cipher 5 and a system key, and the proof matches |
| AdoptionProperties.SuccessReports | src/lifecycle/adoption.cpp:282-331 | a success reports controller, user name and the version and sequence id of the negotiation message, cut to 32 bits |
| AdoptionProperties.FailureReports | src/lifecycle/adoption.cpp:133-317 | what the error of a failed handshake says of its sends, replies and settings, case by case |
| AdoptionProperties.SilentStage | src/lifecycle/adoption.cpp:31-54 | a stage without a reply ended at a failed receive, at something that is no message, or after nine well-formed messages of other types |
| AdoptionProperties.SuccessfulReplies | src/lifecycle/adoption.cpp:133-331 | a success received the five reply types in order, each with header error 0 |
| AdoptionProperties.BoundedReceives | src/lifecycle/adoption.cpp:36-53 | no stage takes more than nine messages |
| AdoptionProperties.AtMost45Receives | src/lifecycle/adoption.cpp:31-54 | no handshake takes more than 45 messages |
| AdoptionProperties.NoiseInsensitive | src/lifecycle/adoption.cpp:36-53 | up to eight well-formed messages of other types before the reply of each stage that is reached change neither the result nor what is sent; of later stages nothing is asked |
| AdoptionProperties.LooksNoFurther | src/lifecycle/adoption.cpp:133-331 | what arrives for stages a handshake does not reach makes no difference to it |
| AdoptionProperties.NineAreTooMany | src/lifecycle/adoption.cpp:36-53 | nine of them end the stage without a reply |
| Appliers.CompositeApplier.Apply | src/application/configuration_applier.cpp:15-30 | the loop over the members: who ran, in order, and the result, as `RunFrom` and `Combined` say |
| Appliers.RunsInOrder | src/application/configuration_applier.cpp:15-30 | the members that ran are the first non-null ones, each once and in order, all successful but perhaps the last |
| Appliers.ResultsAreTheirs | src/application/configuration_applier.cpp:15-30 | every result is that of the member at its place: the outcome of a platform applier at its turn, and from the guard a refusal exactly when a part has no backend |
| Appliers.HonestComposite | src/application/configuration_applier.cpp:15-30 | ok exactly when every non-null member ran and agreed; otherwise the first refusal, after which nothing ran |
| Appliers.UnsupportedReachNoExecutor | src/cli/main.cpp:205-232 | with the guard first, an update stops before every platform applier exactly when it has an LED, client-operation or rate-limit part, or a portal part without portal support |
| Config.AsksForNothing | src/application/configuration.cpp:919-930 | an update is not actionable exactly when it has no members but such as the agent does not know |
| ManagedRequests.ManagedSession.AnswerSet | src/lifecycle/managed_request_handler.cpp:150-193 | the answer to a SET_REQUEST and what its sending does to the local version and sequence id |
| ManagedRequests.ManagedSession.AnswerPortal | src/lifecycle/managed_request_handler.cpp:255-300 | the answer to a portal authentication event |
| ManagedRequests.ManagedSession.HandleRequest | src/lifecycle/managed_request_handler.cpp:119-329 | for every request: the state after it, the result, the message tried, and the appliers run |
| SessionRuns.SetAnswered | src/application/configuration_exchange.cpp:231-286 | a SET_REQUEST is answered exactly when it has a sequence id and names a version that can be had; the answer repeats its sequence id, error code 0 means it was honoured, the version is the one asked for or, after a refusal, the one in force, and the state takes over what an acknowledgement says |
| SessionRuns.VersionIsLastAsked | src/lifecycle/managed_request_handler.cpp:150-193 | after a run the version and sequence id are those the last acknowledged request asked for |
| SessionRuns.OthersAnswered | src/lifecycle/managed_request_handler.cpp:195-329 | the other requests: what each is answered with, and that they leave the state alone |
| SessionRuns.VersionIsLatestAcknowledged | src/lifecycle/managed_request_handler.cpp:180-191 | after any run of requests the version and sequence id are those of the last acknowledgement sent that fits 32 bits, else the initial ones |
| SessionRuns.IncrementsAddUp | src/application/configuration_exchange.cpp:244-261 | from a known version a run of increments ends at the start plus the acknowledged in-range increments, and never goes down |
| SessionRuns.AcknowledgedMeansApplied | src/lifecycle/managed_request_handler.cpp:75-84 | error code 0 for an actionable request means the applier agreed; a refusal or a failed send leaves the state alone |
| SessionRuns.HonestAcknowledgement | src/lifecycle/managed_request_handler.cpp:75-84 | with the composite: error code 0 means every member ran in order and agreed; error code 1 means exactly the members up to the first refusal ran |
| SessionRuns.PortalAnswered | src/lifecycle/managed_request_handler.cpp:255-300 | a portal event leaves the state alone and is answered, under its own sequence number, exactly when its header has one, with error code 0 exactly when it parsed and what it asks for was applied |
| SessionRuns.HonestPortalAnswer | src/lifecycle/managed_request_handler.cpp:255-300 | for a portal event with clients, error code 0 means every live member of the composite ran in order and agreed, error code 1 that exactly those up to the first refusal ran |
| SessionRuns.AppliedEvenIfUnanswerable | src/lifecycle/managed_request_handler.cpp:150-160 | the appliers run before the version fields are looked at: an actionable request is applied even when those fields make it unanswerable, and this says exactly when it is answered |
| JsonText.JsonEscape | src/protocol/ecsp_message.cpp:5-45 | the escaping loop computes `Escape` |
| JsonText.EscapeRoundTrip | src/protocol/ecsp_message.cpp:5-45 | an escaped string, closed by a quote, reads back as the string under section 7 of RFC 8259, whatever follows: so it holds no unescaped quote |
| JsonText.EscapePrintable | src/protocol/ecsp_message.cpp:5-45 | an escaped string holds no raw control character |
| JsonText.ObjectRoundTrip | src/persistence/session_state_repository.cpp:208-258 | an object in the layout of the state file reads back as its members |
| Persistence.SessionStateRepository.WriteAll | src/persistence/session_state_repository.cpp:115-133 | the write loop leaves a prefix in the temporary file, and reports success exactly when the calls let it finish |
| Persistence.SessionStateRepository.Save | src/persistence/session_state_repository.cpp:355-402 | a refused state touches nothing; otherwise the file is replaced as a whole or not at all |
| Persistence.SessionStateRepository.ReadFile | src/persistence/session_state_repository.cpp:161-187 | the read loop returns the whole file unless a read fails |
| Persistence.SessionStateRepository.Load | src/persistence/session_state_repository.cpp:286-353 | a missing file is no state, an unreadable or oversized one a failure, any other what `LoadMembers` accepts |
| Persistence.SessionStateRepository.Clear | src/persistence/session_state_repository.cpp:404-409 | a file is removed, and one that is not there counts as removed |
| Persistence.MembersReadBack | src/persistence/session_state_repository.cpp:227-353 | the written members read back as the state exactly when its address is normalized, its strings are free of NUL and its time stamp is below 2^63 |
| Persistence.LoadAfterSave | src/persistence/session_state_repository.cpp:286-402 | load after a completed save gives exactly the state, if and only if it is representable and its text at most 64 KiB |
| StateDocuments.DocumentLoads | src/persistence/session_state_repository.cpp:286-353 | a document is taken up as a state exactly when its last members of each name describe that state, for this device and this controller |
| StateDocuments.FileLoads | src/persistence/session_state_repository.cpp:161-187 | a file is taken up as a state exactly when it opens, is at most 64 KiB, is read to its end and holds such an object; it fails exactly when it is there and one of the first three does not hold |
| StateDocuments.LoadedIsOurs | src/persistence/session_state_repository.cpp:315-327 | whatever the file holds, a state that is taken up is of this device and this controller, with a controller id and a port from 1 to 65535 |
| StateDocuments.PassedOverFor | src/persistence/session_state_repository.cpp:303-349 | a document is passed over for the first of eight reasons, in the order of the checks, that applies to it |
| StateDocuments.SaveTakes | src/persistence/session_state_repository.cpp:355-402 | a state is accepted exactly when it is of this device and controller with an id and a port; a save then takes exactly when directory and temporary file can be had, the write gets through, and sync and rename work |
| StateDocuments.WriteGetsThrough | src/persistence/session_state_repository.cpp:115-133 | a write gets through exactly when every call that fails or moves nothing comes after all bytes were moved |
| StateDocuments.ReadGetsThrough | src/persistence/session_state_repository.cpp:161-187 | a read gets through exactly when every call that fails comes after the end of the file was seen |
| Persistence.SaveIsAtomic | src/persistence/session_state_repository.cpp:355-402 | whatever fails, the file afterwards is the old one or the whole new text |
| Persistence.SmallStatesFit | src/persistence/session_state_repository.cpp:227-258 | identity strings of at most 62 KiB once escaped never outgrow the file |
| InformSchedule.InformScheduler.Start | src/lifecycle/managed_session.cpp:10-16 | starting sets every field of the schedule |
| InformSchedule.InformScheduler.Poll | src/lifecycle/managed_session.cpp:18-34 | what a poll reports and how the schedule moves, with 32- and 64-bit wrap |
| InformSchedule.Spacing | src/lifecycle/managed_session.cpp:18-34 | any two informs are at least an interval apart, for clocks that jump either way without overflow |
| InformSchedule.AtMostOnePerInterval | src/lifecycle/managed_session.cpp:7-34 | at most one inform per interval, and one more, up to the largest reading; the interval is at least 500 ms |
| InformSchedule.Numbering | src/lifecycle/managed_session.cpp:25-30 | sequence numbers run on modulo 2^32 and only the first inform asks for a reply, whatever the clock |
| InformSchedule.UptimesCount | src/lifecycle/managed_session.cpp:22-33 | every inform reports the whole seconds since the start, 0 before it, and when the next one is due |
| InformSchedule.NotWithheld | src/lifecycle/managed_session.cpp:19-21 | a reading that fires no inform is before the start or within an interval of the last one, overflow or not |
| InformSchedule.WrappedDueTime | src/lifecycle/managed_session.cpp:31 | at every reading where the due time overflows, the next poll at the same reading fires again |
| InformSchedule.SpacedExactly | src/lifecycle/managed_session.cpp:18-34 | informs are an interval apart for every clock that reads at most `latest` exactly when the due time computed at `latest` does not overflow, or `latest` is before the start |
| InformSchedule.CountedExactly | src/lifecycle/managed_session.cpp:18-34 | the bound of one inform per interval, and one more, holds for exactly the same readings |
| ManagedLoop.ServeRequest | src/cli/main.cpp:602-634 | handling, saving and clearing for one request, in the order of the loop |
| ManagedLoop.RunManagedLoop | src/cli/main.cpp:553-637 | the loop over informs and requests is `Rounds`: state, messages, appliers, schedule and state file after any number of iterations |
| LoopEnds.EndsExactly | src/cli/main.cpp:569-635 | a run of the loop is lost exactly when, at some head it gets to, a due inform does not go out or the receive call fails; it is ended exactly when a request to forget is answered |
| LoopEnds.QuietRound | src/cli/main.cpp:593-600 | a timeout keeps the loop going and changes nothing but the read position and, if an inform was due, the inform sent |
| LoopEnds.ServedRound | src/cli/main.cpp:602-634 | a request that arrives is handled with what the appliers make of what it asks for; state, messages, appliers run and file after it, with the time stamp of an answered SET_REQUEST |
| LoopEnds.OneReadEach | src/cli/main.cpp:593-600 | every iteration reads one message |
| LoopProperties.PlainStatesAreDurable | src/persistence/session_state_repository.cpp:355-368 | the states the following are about exist for every repository: any short identifier without NUL and any port but 0 make one |
| LoopProperties.RoundAgreement | src/cli/main.cpp:569-635 | one iteration keeps the state durable; the file then holds what it held, the new state, or nothing because of a forget request |
| LoopProperties.CrashAgreement | src/cli/main.cpp:569-635 | when file operations succeed, at every head of the loop load gives exactly the in-memory state; after a forget request it gives none |
| LoopProperties.NeverTorn | src/cli/main.cpp:569-635 | whatever fails, the file loads as the state it held before, as the state of some head of the loop, or is gone after a forget request |
| LoopProperties.RunAdds | src/cli/main.cpp:569-635 | a run only adds to the messages sent, namely the informs and replies of its iterations |
| LoopProperties.LoopVersion | src/cli/main.cpp:602-625 | through a whole loop the version and sequence id are those of the last acknowledgement sent in it |
| LoopProperties.LoopNumbering | src/cli/main.cpp:570-592 | the messages the device numbers carry consecutive numbers modulo 2^32, whatever clock, controller and sends do |
| LoopProperties.LoopInforms | src/cli/main.cpp:570-592 | the informs a going loop gets across are those the schedule fires at its clock readings |
| Restart.ConnectAndSync | src/cli/main.cpp:295-357 | a connection that comes up and completes the handshake gives the session state of `managed_state_from_adoption`, the messages the handshake sent, and its last sequence number |
| Restart.TryManagedReconnect | src/cli/main.cpp:399-448 | the session, messages and last sequence number of the first of the allowed attempts that syncs, from the saved state; rediscovery exactly when all failed and no stop was requested |
| Restart.SyncedHandshake | src/lifecycle/adoption.cpp:133-331 | a completed sync sent five messages numbered 1 to 5 and reports 5 as the last number |
| Restart.SessionNumbering | src/cli/main.cpp:295-357 | over handshake and informs together the device numbers its messages 1, 2, 3, ... modulo 2^32 |
| Restart.StartsFresh | src/lifecycle/managed_session.cpp:59-77 | the state a session starts with: whom it is with, the user name in force, and the version and sequence id of the negotiation message |
| Restart.FreshStateDurable | src/lifecycle/managed_session.cpp:59-77 | the state built after adoption is accepted and representable when its strings are |
| Restart.SessionCrashAgreement | src/cli/main.cpp:710-722 | from adoption on, once the first save took, every head of the loop finds the in-memory state in the file |
| Restart.RestartRenegotiates | src/lifecycle/reconnect.cpp:43-48 | a restart at any head negotiates with the version last acknowledged, else the one adopted with, else 0 |
| Restart.ReconnectKeepsIdentity | src/lifecycle/reconnect.cpp:26-41 | a reconnect keeps host, controller and port, the saved site before the configured one, and the configured user name before the saved one |
| Daemon.BuildAppliers | src/cli/main.cpp:680-686 | the daemon puts the guard first, the portal applier last and only if the platform supports portals |
| Daemon.Establish | src/cli/main.cpp:696-709 | the session a turn starts with, its messages and last sequence number: the first reconnect attempt that syncs, else the adoption discovery leads to |
| Daemon.RunTurn | src/cli/main.cpp:696-729 | one turn: reconnect or adopt, save, then the managed loop of that very session; state file, appliers run and messages sent are exactly those of `RunOf` |
| Daemon.RunDaemon | src/cli/main.cpp:696-729 | the outer loop: after any number of turns the file, the turns taken and the messages of every session are those of `RunTurns` |
| Daemon.UnsupportedIsRefused | src/cli/main.cpp:205-232 | an update with a part that has no backend reaches no platform applier, is refused if answered, and changes no state |
| DaemonProperties.TurnStarts | src/cli/main.cpp:399-448 | a turn takes up the saved session with the first allowed attempt that works, and only if there is none adopts anew with what discovery found |
| DaemonProperties.TurnGoes | src/cli/main.cpp:696-729 | what a turn leaves of file, appliers and messages with and without a session, and that another turn follows exactly after none or a loop that was not stopped |
| DaemonProperties.TurnsFollow | src/cli/main.cpp:696-729 | each turn starts with what the one before it left, and follows it exactly when another was due |
| DaemonProperties.TurnNumbered | src/cli/main.cpp:696-729 | the session of a turn numbers its own messages 1, 2, 3, ... modulo 2^32, handshake and informs together |
| DaemonProperties.EverySessionNumbered | src/cli/main.cpp:696-729 | so does every session of the daemon, over any number of turns |
| DaemonProperties.TurnAgrees | src/cli/main.cpp:710-722 | a turn whose file operations succeed leaves in the file exactly the state the daemon remembers, and none after a forget request |
| DaemonProperties.TurnsAgree | src/cli/main.cpp:696-729 | so do any number of turns |
| DaemonProperties.NextTurnResumes | src/lifecycle/reconnect.cpp:43-48 | the next turn loads the remembered state, reconnects from it, and negotiates with its version, or 0 when that is unknown |
| DaemonProperties.RemembersAcknowledged | src/cli/main.cpp:602-625 | the version remembered after a turn is the one last acknowledged in it, or the one its session began with |
| DaemonProperties.ReconnectStaysDurable | src/lifecycle/reconnect.cpp:26-41 | a reconnect from a state that can be kept gives a state that can be kept |
| OrderedMap.List | src/application/client_state.cpp:230-235 | iterating a map by repeatedly taking the least key lists its values in key order |
| OrderedMap.KeysOrdered | src/application/client_state.cpp:230-235 | the listing covers every key once, in ascending order |
| Clients.MergeAssociative | src/application/client_state.cpp:51-102 | merging clients is associative, field by field |
| Clients.MergeWirelessClientStates | src/application/client_state.cpp:216-236 | the two loops over a map compute `Merged` |
| Clients.MergeAssociatedWirelessClientStates | src/application/client_state.cpp:238-260 | the two loops over a map compute `MergedAssociated` |
| Clients.MergesSorted | src/application/client_state.cpp:216-260 | both merges list each address at most once, in address order |
| Clients.AssociatedIsRestriction | src/application/client_state.cpp:238-260 | the associated merge is the full merge restricted to the associated addresses |
| Clients.PremergeExactly | src/application/client_state.cpp:216-236 | merging two lists one after the other equals merging their pre-merge, for every base and every second list, exactly when no entry of the first sets a field that the last entry of its address leaves empty |
| Clients.DistinctPremerge | src/application/client_state.cpp:216-236 | in particular when the first list repeats no address |
| Clients.RepeatedAddressLosesData | src/application/client_state.cpp:221-223 | two entries of one address, each with a field of its own, are merged differently as a base than as an overlay |
| Clients.ClientsFromDhcpLeases | src/application/client_state.cpp:194-214 | the lease loop and the listing of its map |
| Clients.LatestLeaseWins | src/application/client_state.cpp:194-214 | the list returned is in address order without repeats, each entry is the lease of its address with the greatest expiry, the last one on ties, and no address of the leases is missing |
| Telemetry.CountStations | src/openwrt/telemetry.cpp:237-240 | the station sum of a radio, in 64 bits |
| Telemetry.StatusInform | src/openwrt/telemetry.cpp:514-547 | the nested loops over radios and interfaces give the status members in order |
| Telemetry.StatusInterfaces | src/openwrt/telemetry.cpp:549-576 | the nested loops give the interfaces that have a name, in order, with SSID and band |
| Telemetry.SumClients | src/openwrt/telemetry.cpp:405-478 | the counter loops add up in 64 bits what the clients report, and count the client objects |
| Telemetry.MergeRadioTraffic | src/openwrt/telemetry.cpp:374-403 | the map of ten counters ends as the 64-bit sum of both documents, each number re-read saturated |
| Telemetry.MergeSsidStats | src/openwrt/telemetry.cpp:333-364 | the filter loop drops the entries of the SSID and appends the new one |
| Telemetry.InformPayload.Get | src/openwrt/telemetry.cpp:324-331 | the first member of a key |
| Telemetry.InformPayload.Set | src/openwrt/telemetry.cpp:314-322 | the first member of a key is replaced in place, else one is appended |
| Telemetry.InformPayload.Augment | src/openwrt/telemetry.cpp:669-692 | what one interface with its hostapd document does to the three members of its band |
| Telemetry.WirelessInform | src/openwrt/telemetry.cpp:653-696 | status first, then the paired interfaces in order |
| TelemetryReports.StatsReport | src/openwrt/telemetry.cpp:247-301 | a radio has one entry for each interface with an SSID, in order, with its stations, its address in the controller form where it is one, and its counters, the general ones where byte counters read 0 |
| TelemetryReports.SettingsReport | src/openwrt/telemetry.cpp:237-245 | the settings of a radio, with the number of stations over all its interfaces if there are any |
| TelemetryReports.FirstRadioSpeaks | src/openwrt/telemetry.cpp:514-547 | under each key the status has the document of the first radio of the band that has one |
| TelemetryReports.AllWatched | src/openwrt/telemetry.cpp:549-576 | the interfaces asked about are those with a name, in order, each with its SSID and the band of its radio |
| TelemetryReports.HostapdReports | src/openwrt/telemetry.cpp:405-478 | the entry and the counters made of a client list are the number of client objects and the sums of what they were sent and received, in 64 bits |
| TelemetryReports.CountsExactly | src/openwrt/telemetry.cpp:653-668 | hostapd counts exactly for an interface with a band and an SSID whose document has a client object |
| TelemetryProperties.AugmentedAt | src/openwrt/telemetry.cpp:669-692 | the three documents of every band after one interface; other bands are untouched |
| TelemetryProperties.ConservedExactly | src/openwrt/telemetry.cpp:374-478 | printing and re-reading can only lose counts, and loses none exactly when everything before the last contribution, and that contribution, stay below 2^63 |
| TelemetryProperties.TrafficConserved | src/openwrt/telemetry.cpp:653-696 | the radio traffic of a band is, counter by counter, the sum over all clients of all paired interfaces of the band while that sum is below 2^63 |
| TelemetryProperties.OneEntryPerAugmentedSsid | src/openwrt/telemetry.cpp:333-364 | an SSID hostapd reports on has exactly one entry, that of its last interface; the entries of other SSIDs are those of the status |
| TelemetryProperties.StationsAreTheMaximum | src/openwrt/telemetry.cpp:480-503 | the station number is the largest of status and hostapd, and the other settings stay |
| TelemetryProperties.AugmentingRepeatsNoKey | src/openwrt/telemetry.cpp:653-696 | the inform has one member per key exactly when the status had |
| TelemetryProperties.StatusKeysExactly | src/openwrt/telemetry.cpp:514-547 | the status has one member per key exactly when no two radios of one band both have settings and no two both have SSID entries |
| TelemetryProperties.InformKeysExactly | src/openwrt/telemetry.cpp:653-696 | the same holds of the inform, whatever hostapd reports |
| TelemetryProperties.OneRadioPerBand | src/openwrt/telemetry.cpp:514-547 | radios on different bands give one member per key |
| TelemetryProperties.SharedBandKeepsStaleEntry | src/openwrt/telemetry.cpp:514-547 | with two radios on one band a key repeats and the second member keeps the stale entry of an augmented SSID |
| PortalPolicy.TrimLoop | src/openwrt/opennds.cpp:17-25 | the two trimming loops |
| PortalPolicy.TrimInside | src/openwrt/opennds.cpp:17-25 | trimming cuts off blanks at both ends and nothing else |
| PortalPolicy.TrimTrims | src/openwrt/opennds.cpp:17-25 | a trimmed text has no blank at either end and is left alone by trimming |
| PortalPolicy.AppendAllCollects | src/openwrt/opennds.cpp:34-42 | appending uniquely keeps what is there and adds exactly the trimmed non-empty values, once each |
| PortalPolicy.Ipv4Octet | src/openwrt/opennds.cpp:44-59 | the digit loop accepts one to three digits up to 255 |
| PortalPolicy.OctetExactly | src/openwrt/opennds.cpp:44-59 | an octet is a decimal number up to 255 of at most three characters, perhaps after zeros |
| PortalPolicy.ValidIpv4Address | src/openwrt/opennds.cpp:61-79 | the offset loop accepts what `DottedOctets` describes |
| PortalPolicy.Ipv4Exactly | src/openwrt/opennds.cpp:61-79 | accepted are exactly four octets joined by dots |
| PortalPolicy.NetworkShape | src/openwrt/opennds.cpp:160-182 | a rule becomes nothing, an address, or an address with a mask of at most 32 bits, and no other character |
| PortalPolicy.NetworkExactly | src/openwrt/opennds.cpp:160-182 | which network a rule becomes, exactly: the first of six fields that is not blank, with the destination mask before the other |
| PortalPolicy.HostShape | src/openwrt/opennds.cpp:103-134 | a host taken from a rule has no upper-case letter, slash, question mark, hash or at sign and is no IPv4 address |
| PortalPolicy.PolicyFromFreePolicy | src/openwrt/opennds.cpp:505-524 | the loops over the rules fill both lists in rule order |
| PortalPolicy.ListsComplete | src/openwrt/opennds.cpp:505-524 | both lists are free of duplicates and hold exactly the hosts the rules name and, as rules that let every device through, the networks |
| PortalHosts.HostOfUrl | src/openwrt/opennds.cpp:103-134 | the host of an address with scheme, user, port and path is the part between user and port in lower case |
| PortalHosts.HostWithoutScheme | src/openwrt/opennds.cpp:103-134 | the same for an address without a scheme, perhaps after two slashes |
| PortalHosts.ListsInOrder | src/openwrt/opennds.cpp:505-524 | the lists keep the order of the rules: further rules only add at the end |
| ShellQuoting.ShellQuoteLoop | src/openwrt/opennds.cpp:279-290 | the quoting loop computes `ShellQuote` |
| ShellQuoting.ShellQuoteRoundTrip | src/openwrt/opennds.cpp:279-290 | a quoted value is one shell word standing for the value under section 2.2 of the Shell Command Language (IEEE Std 1003.1), for every value without NUL and no other |
| ShellQuoting.ShellQuoteInjective | src/openwrt/opennds.cpp:279-290 | different values without NUL are quoted differently |
| OpenNds.QuietDeletesRecognised | src/openwrt/opennds.cpp:374-379 | the command lines whose failure is passed over are exactly the quiet deletes |
| OpenNds.ArgvInjective | src/openwrt/opennds.cpp:543-585 | a command line names its setting and value unambiguously |
| OpenNds.PortsReadBack | src/openwrt/opennds.cpp:553-563 | the port list is the decimal ports, in order, between single blanks |
| OpenNds.BuildOpenNdsApplyPlan | src/openwrt/opennds.cpp:543-585 | the plan is the deletes, the two lists with their ports, the theme, the fixed options, commit and restart, in this order |
| OpenNds.ExecuteOpenNdsApplyPlan | src/openwrt/opennds.cpp:678-709 | the execution loop: which commands ran, the result and the system after it |
| OpenNdsProperties.StopsAtFirstFailure | src/openwrt/opennds.cpp:691-705 | the commands that ran are a prefix that ends with the plan or with the first refused command that is no quiet delete |
| OpenNdsProperties.NothingTakesEffectEarly | src/openwrt/opennds.cpp:580-581 | the running daemon changes only when the whole plan went through, the committed configuration only when everything before the commit did |
| OpenNdsProperties.ConvergesExactly | src/openwrt/opennds.cpp:543-585 | after a success a setting is as the policy asks exactly when its stale entry was absent, was deleted, or is overwritten anyway |
| OpenNdsProperties.Converges | src/openwrt/opennds.cpp:543-585 | when quiet deletes fail only on absent entries every setting converges, whatever the store was |
| OpenNdsProperties.ThemeComesAlong | src/openwrt/opennds.cpp:566-574 | a plan comes with a script exactly when one of its commands writes it |
| OpenNdsProperties.ThemeInPlace | src/openwrt/opennds.cpp:569-574 | after a success the script is the one of the policy, and readable, exactly when there is a redirect address |
| OpenNdsProperties.FreePolicyInForce | src/openwrt/opennds.cpp:505-585 | from free-access rules to the running daemon: one entry per host and network, none twice, none missing |

## Left out

- Sockets, TLS and certificate set-up, UDP discovery and its datagrams, process spawning, directory creation: oracles that succeed or fail, or not modelled.
- The waiting loops around discovery (`discover_and_adopt`) and the delays between turns; a turn starts from what discovery came back with.
- `run_managed_reconnect` of the reconnect component: the daemon uses `try_managed_reconnect`, which is modelled; the former is the same counting loop over callbacks.
- Ends of endless loops: a run of the managed loop is observed up to the iteration at whose head a stop is requested, for every number of iterations. Write schedules are finite lists; a link whose write schedule runs out is broken, a file whose schedule runs out moves the rest at once.
- json-c: messages, status documents and hostapd documents start as parsed records. The state file is read as a flat object under RFC 8259; what json-c accepts beyond that (comments, nested or fractional values, trailing commas) is not modelled. Strings stand for bytes.
- The bodies of GET and NOTIFY replies, of informs outside the wireless members, message headers other than type, error and sequence number, time stamps in messages, and the detail texts of errors.
- MD5 and SHA-256 proofs and the random keys: the proof is a function of user name, password and key about which nothing is assumed.
- The extraction of configuration records from JSON, daemon options, environment overrides, logging and capability detection.
- ManagedRequests.ManagedSession.AnswerSet: an increment that overflows a signed 64-bit sum is undefined in the source and wraps here; the station sum of a radio is treated alike.
- The `uci` tool itself: commands have the meaning given in `UciStore` and `OpenNds`, and the decoder of `UciText` is the inverse of the agent's own encoding, not the tool's lexer.
- UciBatch.PlanTextReachesIntended: needs the free texts that reach the batch to be safe, which is exactly when the text decodes to the plan (`UciBatch.PlanTextExactly`); `UciBatch.TextLeavesFrame` shows an accepted name for which it does not.
- FrameTransport.StreamRoundTrip: excludes timeouts inside a frame, where the reader drops the bytes it has; `FrameTransport.StreamExactly` states the exact condition.
- InformSchedule.Spacing: excludes readings at which the due time overflows 64 bits; `InformSchedule.SpacedExactly` states the exact condition.
- The text of the portal script apart from the quoting of its values, the choice of the redirect address and site names, the `ndsctl` commands for single clients and the parsing of openNDS client lists.
- ShellQuoting.ShellQuoteRoundTrip: the word reader knows quotes, escapes and operators; words with expansions, globs or double quotes are not read.
- The rendering of client and inform documents to JSON, dnsmasq lease parsing and the client lists taken from hostapd: records before and after them are modelled, the text is not.
- Telemetry.WirelessInform: the status is a list of radios with their band already recognised from the name; fields copied through without being looked at are kept as pairs.
- The table of session states in `src/lifecycle/session.cpp`, which the daemon does not consult.
