# Omacam in Dafny

Omacam turns a phone into a Linux webcam. This project models the parts of it
where correctness is a matter of protocol rather than of plumbing, and proves
what they promise.

* **The media path.** H.264 records travel from the phone in a 104-byte framing
  (`Media`, `PhoneEncoder`), are validated in two phases (`Validator`,
  `TwoPhase`), thinned by a two-slot queue (`FreshQueue`), renumbered
  (`Forwarding`), and written to the output service through a pipe shared with
  84-byte commands (`OutputWorker`). The service reads the pipe, by one thread or
  by two (`Service`, `Pipelined`). `Composition` joins the stages end to end.
  `RawOutput` and `Mux` follow the decoded frames to the virtual camera, with the
  service, the decoder pump and the mux as three concurrent actors. `Rtc` is the
  bounded channel of the browser path, `BrowserPath` that path as a whole, and
  `LiveOutput` joins the executed pipe to the frames on the output.
  `ServiceLanguage` says which inputs the service accepts at all.
* **The browser command protocol.** `Camera` and `CameraSession` are the daemon's
  side: capabilities, controls, revisions, one pending command. `PhoneProtocol`
  adds the phone and a network between them that loses, delays and repeats
  messages; `PhoneRuns` builds whole runs of it.
* **Session authority.** `SessionPolicy` combines trust, consent, lease,
  generation and staleness; `ServiceRuntime` is the service's bounded,
  deduplicating ledger of operations.
* **Two smaller proofs.** `Transcripts` shows the signed length-prefixed
  transcripts injective; `Jpeg` shows the preview's splitter exact.

`SessionHistory`, `PolicyHistory`, `RuntimeHistory` and `WorkerHistory` tell each
of those states by the events alone: every field, every refusal and every
expiry is decided by which events came before, in both directions.

Each component is an imperative class or method in the form of its source,
proved equal to a step function; the theorems are about all runs of those step
functions. Runs are sequences of events, one event for one critical section or
one thread step, so a theorem over every sequence is one over every interleaving.
Clock readings, process health and message loss are parameters of the events.
Bytes, 16-, 32- and 64-bit integers are bounded, and every wrap-around,
saturation and overflow test of the source is written out. Texts are their UTF-8
bytes.

## What turned out to need a condition

* `finish_record` saturates where `validate_header` refuses, so a header with the
  largest sequence number can be committed again: `TwoPhase.ReplayExactly`.
* Generations wrap: an ended one comes back after exactly 2^64 changes and not
  before: `SessionPolicy.GenerationsComeBack`.
* `send_fresh` keeps the keyframe chain unless the consumer takes a frame in the
  middle of an eviction: `Rtc.DeliveryChainsExactly`.
* The daemon remembers 256 command ids. A phone that never heard the answer to an
  acknowledgement takes a later command with the same id for the old one and
  acknowledges it without applying it. Acknowledged outcomes are genuine for all
  runs exactly when the desktop never reuses an id: `PhoneRuns.GenuineExactly`.
* An apply step that is aborted is acknowledged by the next cycle as if it had
  succeeded: `PhoneRuns.AbortedIsShownApplied`.
* Revisions saturate, and then no longer determine the camera state:
  `CameraSession.LastRevisionIsShared`.
* Invalidating an idle service drops a leftover camera report or leftover
  statistics without a new revision, so watchers are not told:
  `ServiceRuntime.ChangesAreAnnounced` says exactly when.
* The browser path does not look at times or sizes before it writes, so a sample
  clock that steps back ends the stream: `BrowserPath.BrowserToDecoder` says
  exactly when nothing is refused.
* A request can validate against capabilities without any camera, and then no
  report of the phone could ever grant it: `Camera.ValidRequestsAreHonourable`.

## Model

| member | source | states |
|---|---|---|
| `Media.WriteRecord` | crates/omacam-core/src/media.rs:564-611 | writes the wire form of a record the format allows, and writes nothing when it refuses one, with the reason |
| `Media.WriteOutputControl` | crates/omacam-core/src/media.rs:65-84 | writes exactly the 84-byte form of a command, over whatever the pipe already holds |
| `Media.ControlRoundTrip` | crates/omacam-core/src/media.rs:65-141 | 84 bytes parse to a command if and only if they are that command's printed form and its generation is not 0 |
| `Media.ShutdownRoundTrip` | crates/omacam-core/src/media.rs:78-141 | 84 bytes parse to Shutdown only when every byte after the kind is 0, as printed |
| `Hex.ParseHex` | crates/omacam-core/src/media.rs:623-653 | succeeds exactly on the hex form of n bytes in either case, and gives those bytes |
| `Hex.EncodeHexInjective` | crates/omacam-core/src/media.rs:646-653 | different identifiers have different hex forms |
| `Validator.MediaStreamValidator.Validate` | crates/omacam-core/src/media.rs:414-495 | agrees with the header specification field by field, in the order of the error cases, and changes nothing |
| `Validator.MediaStreamValidator.Finish` | crates/omacam-core/src/media.rs:503-533 | commits a header against the state at the time of the commit, and leaves the state alone when it refuses |
| `Validator.MediaStreamValidator.Read` | crates/omacam-core/src/media.rs:385-405 | one record, a clean end, or an error, from a real byte buffer, with exactly the right bytes used up |
| `Validator.ValidateExactly` | crates/omacam-core/src/media.rs:414-495 | a header is accepted if and only if it is the header of a legal next record |
| `Validator.ReadNextExactly` | crates/omacam-core/src/media.rs:385-405 | a record is read if and only if the input starts with its printed form and it is a legal successor; those bytes are the ones used up |
| `Validator.FreshStreamLegal` | crates/omacam-core/src/media.rs:357-367 | from a fresh binding, what the validator accepts is exactly: numbered from 0, timestamps never decreasing, Stop only last |
| `Validator.StreamExactly` | crates/omacam-core/src/media.rs:385-611 | repeated reading inverts repeated printing: a list of records comes back if and only if the input is their concatenated form, they are legal, and reading had to end there |
| `Validator.ForwardMedia` | crates/omacam-output/src/service.rs:338-353 | the decoder receives exactly the payloads of the records before the first error, Stop or end of input |
| `TwoPhase.CommitsWhereValidated` | crates/omacam-core/src/media.rs:414-533 | after any calls in between, a header below the largest sequence commits only in the very state it was validated against |
| `TwoPhase.CommitsAtMostOnce` | crates/omacam-core/src/media.rs:503-533 | no later call, however many there are, commits the same header again |
| `TwoPhase.ReplayExactly` | crates/omacam-core/src/media.rs:514-519 | committing a header twice in a row succeeds if and only if it is an access unit with the largest sequence number, because the successor saturates |
| `TwoPhase.LargestSequenceReplays` | crates/omacam-core/src/media.rs:514-519 | a whole run in which that happens: two committed records share the largest sequence number |
| `TwoPhase.RefinesAtomicValidation` | crates/omacam-core/src/media.rs:414-533 | validation and commit split over any interleaving commit a legal stream and reach the state of committing it atomically |
| `PhoneEncoder.WriteAccessUnit` | android/app/src/main/java/dev/omacam/companion/MediaProtocol.kt:11-26 | for non-negative fields and a well-formed binding, the phone's field-by-field writer produces the same bytes as the Rust writer; otherwise it writes nothing |
| `PhoneEncoder.WriteStop` | android/app/src/main/java/dev/omacam/companion/MediaProtocol.kt:28-32 | the same for the Stop record |
| `PhoneEncoder.WriteHeader` | android/app/src/main/java/dev/omacam/companion/MediaProtocol.kt:34-58 | eleven separate writes add up to the header layout both ends agree on, or to nothing |
| `PhoneEncoder.HexBytesExactly` | android/app/src/main/java/dev/omacam/companion/MediaProtocol.kt:61-68 | the phone reads the same hex strings as `parse_hex`, as the same bytes |
| `Transcripts.AppendField` | crates/omacam-core/src/pairing.rs:441-446 | a field is refused exactly when its length does not fit 32 bits |
| `Transcripts.BuildTranscript` | crates/omacam-core/src/control.rs:263-287 | the byte-building loop produces the transcript of the listed fields, or fails as a whole |
| `Transcripts.FieldPrefixFree` | crates/omacam-core/src/pairing.rs:441-446 | a length-prefixed field can be cut off the front of a byte string in one way only |
| `Transcripts.TranscriptInjective` | crates/omacam-core/src/pairing.rs:422-446 | equal transcripts have equal fields, whatever the fields hold and however many there are |
| `Transcripts.PairTranscriptBinds` | crates/omacam-core/src/pairing.rs:422-438 | a pairing signature binds every field of the claim |
| `Transcripts.ControlTranscriptBinds` | crates/omacam-core/src/control.rs:263-279 | a control proof binds every field of the challenge |
| `Transcripts.TranscriptsSeparate` | crates/omacam-core/src/control.rs:263-279 | no pairing transcript is a control transcript |
| `Service.ReadPrefix` | crates/omacam-output/src/service.rs:328-337 | tells a clean end from a truncated marker |
| `Service.ReadServiceInput` | crates/omacam-output/src/service.rs:225-260 | the byte-level reader returns the item the input starts with, the end, or the error of the specification, and uses up that item only |
| `Service.ServiceOutput.BindTo` | crates/omacam-output/src/service.rs:88-104 | binds only an unbound service, with a fresh validator for the new binding |
| `Service.ServiceOutput.ResetTo` | crates/omacam-output/src/service.rs:106-126 | resets only under the current binding, and drops the validator |
| `Service.ServiceOutput.ExecuteItem` | crates/omacam-output/src/service.rs:142-199 | one item executed by the mutable service is one step of the specification |
| `Service.Forward` | crates/omacam-output/src/service.rs:269-326 | the sequential loop over a byte stream delivers and returns what the specification says for every input |
| `Service.ReadAheadAgrees` | crates/omacam-output/src/service.rs:142-326 | reading payloads ahead of validation changes neither what the decoder gets nor whether the run succeeds |
| `ServiceLanguage.ServiceExactly` | crates/omacam-output/src/service.rs:142-326 | the service runs through an input without error if and only if the input is the printed form of bindings that follow one another, each with a legal stream, up to the end or a Shutdown; the decoder then gets exactly the payloads of that form |
| `Pipelined.PipelinedAgrees` | crates/omacam-output/src/service.rs:142-199 | with a reader thread ahead of the executor, every schedule is finite (at most 3 steps for each 84 bytes), cannot block before a result, keeps the channel within two items, and gives the result of running in sequence |
| `Pipelined.NeverStuck` | crates/omacam-output/src/service.rs:142-199 | in every reachable pair of thread states without a result, some thread can move |
| `Pipelined.StepsRunOut` | crates/omacam-output/src/service.rs:142-199 | every thread step uses up part of a finite budget |
| `OutputWorker.Worker.CheckHealth` | crates/omacam-daemon/src/capture/output_worker.rs:73-92 | a failed health check is remembered and closes the pipe for good |
| `OutputWorker.Worker.BindTo` | crates/omacam-daemon/src/capture/output_worker.rs:98-112 | refuses a second binding, and writes one Bind otherwise |
| `OutputWorker.Worker.ResetTo` | crates/omacam-daemon/src/capture/output_worker.rs:114-136 | refuses another generation, and writes a Reset only when something is bound |
| `OutputWorker.Worker.Write` | crates/omacam-daemon/src/capture/output_worker.rs:139-166 | writes a record only under its own binding; every refusal leaves the pipe unchanged |
| `OutputWorker.Worker.Close` | crates/omacam-daemon/src/capture/output_worker.rs:168-179 | a Shutdown reaches the pipe only while it is open and healthy |
| `OutputWorker.PipeDelivers` | crates/omacam-daemon/src/capture/output_worker.rs:98-179 | for every sequence of successful calls: the service executes the bytes without error if and only if generations are not 0 and each binding's records are numbered from 0 with timestamps in order; then the decoder gets exactly the payloads written, in order, each under its binding |
| `OutputWorker.ServiceFollows` | crates/omacam-output/src/service.rs:142-260 | the service mirrors the worker call by call, with anything still unread left over |
| `WorkerHistory.WorkerAsTold` | crates/omacam-daemon/src/capture/output_worker.rs:73-179 | after any calls, failed ones included: the worker is bound to the last binding bound and not reset since, is given up exactly when some call looked and found the child dead, and has written exactly what its successful calls stand for |
| `WorkerHistory.CallsFailExactly` | crates/omacam-daemon/src/capture/output_worker.rs:73-166 | every call succeeds or fails, and with which error, for what the calls before it tell; once a call found the child dead nothing succeeds and nothing is written |
| `FreshQueue.FreshMedia.Send` | crates/omacam-daemon/src/capture.rs:446-485 | drops the oldest frames to make room and counts them; a terminal item replaces everything and closes the queue |
| `FreshQueue.FreshMedia.Receive` | crates/omacam-daemon/src/capture.rs:489-505 | takes the oldest item and tells the drops counted by now; the channel is over only when it is closed and empty |
| `FreshQueue.FreshnessConserves` | crates/omacam-daemon/src/capture.rs:445-505 | over every run: at most two items wait, delivery is a subsequence of sending, a terminal item is the last one delivered, and every frame sent was delivered, waits, was counted, was cleared by a terminal item or came after it |
| `FreshQueue.OnlyTheOldestGiveWay` | crates/omacam-daemon/src/capture.rs:445-505 | over every run, by places in what was sent: a dropped frame was followed by two more before any terminal item; a frame sent to an open queue leaves the newest two of what waited and itself; a terminal item waits alone, and nothing after it is kept |
| `FreshQueue.TheNewestArrives` | crates/omacam-daemon/src/capture.rs:445-505 | from every run, two receives deliver the newest item sent, or the first terminal one |
| `Composition.ReceiveRecord` | crates/omacam-daemon/src/capture.rs:577-592 | the authenticated reader's own read steps return a record exactly when the validator's one-step reader does |
| `Composition.ReceiveMedia` | crates/omacam-daemon/src/capture.rs:508-600 | sends every record the stream legally holds, in order, and then an error unless a Stop ended it |
| `Composition.ThinningKeepsOrder` | crates/omacam-daemon/src/capture.rs:445-600 | what survives the queue comes from distinct network records in their order, and is still writable and in timestamp order |
| `Composition.NetworkToDecoder` | crates/omacam-daemon/src/capture.rs:205-244 | any bytes from the network, any interleaving of the queue's two ends, any number of frames forwarded: the service never refuses what it is sent, and the decoder gets exactly those frames' payloads, from distinct network records in their original order |
| `Forwarding.MediaArm` | crates/omacam-daemon/src/capture.rs:205-292 | every frame written was first accepted by the policy under the binding's generation and is numbered from 0; the loop ends for the stated reason only, with the policy disarmed |
| `Forwarding.OutputLoop` | crates/omacam-daemon/src/browser/preview.rs:80-101 | records are written in order from number 0 until cancellation or a refused write, and the reset reaches the worker in every case |
| `Forwarding.CallsAcceptedExactly` | crates/omacam-daemon/src/capture.rs:236-244 | renumbering records from 0 yields calls that all succeed and are numbered as the service demands, if and only if the records are writable frames in timestamp order |
| `RawOutput.FrameIsThreePlanes` | crates/omacam-output/src/config.rs:77-79 | for every supported format the halving is exact: a frame is one luma plane and two quarter-size chroma planes |
| `RawOutput.BlackI420Frame` | crates/omacam-output/src/mux.rs:215-221 | the neutral frame is black in every luma and chroma byte, and of frame size |
| `RawOutput.RawFrameQueue.Push` | crates/omacam-output/src/mux.rs:27-36 | frames of another size are ignored; otherwise the newest two remain |
| `RawOutput.RawFrameQueue.TakeLatest` | crates/omacam-output/src/mux.rs:38-43 | gives the newest frame and forgets the rest |
| `RawOutput.RawMux.Switch` | crates/omacam-output/src/mux.rs:169-182 | activating and deactivating both forget every frame seen so far |
| `RawOutput.RawMux.Tick` | crates/omacam-output/src/mux.rs:188-208 | writes one frame: the newest one taken less than 400 ms ago while active, the neutral one otherwise |
| `RawOutput.PumpFrames` | crates/omacam-output/src/decoder.rs:26-36 | pushes every whole frame of the decoder's output in order, and nothing of an unfinished one |
| `RawOutput.ChoppedIsWhole` | crates/omacam-output/src/decoder.rs:26-36 | those frames joined are the decoder's output up to less than one frame |
| `Mux.OutputIsLegitimate` | crates/omacam-output/src/mux.rs:153-213 | in every interleaving of service, decoder pump and mux: each written frame is neutral or was pushed by the decoder of the binding in force and taken out of the queue, once, by a tick less than 400 ms before; frames never go back in time; the output is a whole number of frames |
| `Mux.LiveOutputIsBound` | crates/omacam-output/src/service.rs:88-126 | a live frame being written belongs to the binding the service has or is just making |
| `Mux.ResetSilencesOutput` | crates/omacam-output/src/service.rs:106-126 | once a reset's deactivate is acknowledged, only neutral frames appear until the next activate is obeyed |
| `Mux.ResetLeavesNothing` | crates/omacam-output/src/decoder.rs:62-73 | a finished reset leaves no frame of the old decoder in the queue or the mux, and no pump that could push one |
| `Mux.TickExactly` | crates/omacam-output/src/mux.rs:153-213 | over every interleaving, from the obeyed commands, takes and pushes: a tick that finds frames waiting while active takes the newest one pushed; the frame chosen is neutral if and only if nothing taken since the last Activate is less than 400 ms old, otherwise it is the newest one taken; and it is written next |
| `Mux.DecodedFrameIsShown` | crates/omacam-output/src/mux.rs:184-208 | a frame pushed while the mux is active and ticking next is the one that is written |
| `Mux.BindAndResetReturn` | crates/omacam-output/src/service.rs:88-126 | from every reachable state, at most ten steps bring a bind or reset under way to its end, with the mux active exactly when the service is then bound |
| `LiveOutput.LiveOutputExactly` | crates/omacam-output/src/service.rs:88-199 | with the service thread, the decoder pump and the mux in any interleaving over any input: the decoders' inputs, in order, are exactly the payloads delivered so far, each under its decoder's binding; every live frame on the output came from the decoder of the binding in force when it was written; nothing else is ever delivered than the sequential run delivers |
| `LiveOutput.LiveFrameShowsDelivered` | crates/omacam-output/src/service.rs:88-140 | while a live frame is being written, the input of the decoder it came from is exactly what was delivered since the binding in force was made |
| `LiveOutput.WorkerToScreen` | crates/omacam-output/src/service.rs:142-199 | from well-numbered calls of the worker: the decoders are given payloads as written, in order, each under its binding, and the service thread stops executing only when they have been given all of them |
| `Rtc.FreshSender.Send` | crates/omacam-daemon/src/browser/rtc.rs:158-193 | one send taken as a whole is the specification's step |
| `Rtc.DeliveryChainsExactly` | crates/omacam-daemon/src/browser/rtc.rs:89-193 | in every interleaving with the consumer: media events are conserved and delivered in source order, and the delivered stream is decodable if and only if the consumer never took a non-keyframe from under a running eviction |
| `Rtc.AtomicSendsChain` | crates/omacam-daemon/src/browser/rtc.rs:158-193 | with sends atomic to the consumer, the first frame delivered is a keyframe and each other non-keyframe directly follows its predecessor |
| `Rtc.InterleavedEvictionBreaksChain` | crates/omacam-daemon/src/browser/rtc.rs:176-185 | seven steps in which an interleaved eviction lets a frame through without its predecessor |
| `Rtc.KeepsExactly` | crates/omacam-daemon/src/browser/rtc.rs:89-193 | after any run exactly the possible steps can be taken, and each does what the kept frames tell: a frame is wanted if and only if it is a keyframe or follows the newest kept one; it joins the channel if there is room; otherwise the channel is emptied, and a keyframe then waits alone |
| `Rtc.SendIsItsSteps` | crates/omacam-daemon/src/browser/rtc.rs:158-193 | one send taken as a whole is its separate steps with nobody in between |
| `BrowserPath.BrowserToDecoder` | crates/omacam-daemon/src/browser/rtc.rs:89-193 | any samples, any interleaving of sender and output loop: no write and no record is refused if and only if the delivered payloads have 1 to 1048576 bytes and their times never go back; the decoder then gets exactly those payloads, from distinct samples in their order |
| `BrowserPath.TimeIsMicroseconds` | crates/omacam-daemon/src/browser/rtc.rs:89-104 | a record's time is the whole number of microseconds since the first usable sample, up to the saturation of the product |
| `BrowserPath.SteadyClockIsLawful` | crates/omacam-daemon/src/browser/rtc.rs:101-104 | samples of one clock rate whose times do not step back and whose payloads have a lawful size are never refused, saturation and rounding included |
| `SessionPolicy.SessionPolicy.Request` | crates/omacam-core/src/lib.rs:157-169 | a start is refused with the first reason that applies, and pends otherwise |
| `SessionPolicy.SessionPolicy.Grant` | crates/omacam-core/src/lib.rs:177-193 | consent arms a new generation, and only answers a pending request |
| `SessionPolicy.SessionPolicy.Started` | crates/omacam-core/src/lib.rs:200-207 | a stale generation is refused before the state is looked at |
| `SessionPolicy.SessionPolicy.Refresh` | crates/omacam-core/src/lib.rs:214-224 | extends the lease of the current generation only |
| `SessionPolicy.SessionPolicy.Accept` | crates/omacam-core/src/lib.rs:231-241 | accepts a frame of the current generation only, and turns a neutral output live |
| `SessionPolicy.SessionPolicy.TickAt` | crates/omacam-core/src/lib.rs:249-265 | an expired lease stops the capture; a stale frame only neutralizes the output |
| `SessionPolicy.SessionPolicy.StopCapture` | crates/omacam-core/src/lib.rs:267-278 | ends the session, and takes a new generation only if there was one to end |
| `SessionPolicy.SessionPolicy.Forget` | crates/omacam-core/src/lib.rs:280-284 | stops, and revokes trust |
| `SessionPolicy.EveryStateIsConsistent` | crates/omacam-core/src/lib.rs:113-298 | in every reachable state: armed is exactly starting or streaming, anything but idle means trusted, live output means streaming with a recorded frame |
| `SessionPolicy.TimesAreRemembered` | crates/omacam-core/src/lib.rs:177-241 | the stored times are those of the last accepted frame and of the last grant or refresh of the whole run |
| `SessionPolicy.TickBoundsStaleness` | crates/omacam-core/src/lib.rs:249-265 | right after a tick, live output is less than 500 ms old and an armed capture less than 10 s from its last authorization |
| `SessionPolicy.AuthorityExactly` | crates/omacam-core/src/lib.rs:177-292 | a lease refresh for g succeeds if and only if g was returned by a consent that answered a pending request, with no stop, forget or lease expiry since; starting and delivering frames succeed exactly then and in their own phase |
| `SessionPolicy.EndedGenerationsStayDead` | crates/omacam-core/src/lib.rs:267-292 | a generation ended once never succeeds again, while fewer than 2^64 generation changes have happened since its grant |
| `SessionPolicy.GenerationsComeBack` | crates/omacam-core/src/lib.rs:267-278 | that bound is tight: after exactly 2^64 changes an ended generation is in force again |
| `PolicyHistory.StateAsTold` | crates/omacam-core/src/lib.rs:113-298 | after any run every field is what the events tell: trusted if and only if the last trust or forget event was a trust event, online if and only if authenticated and neither lost nor forgotten since, the capture by the last request, consent and start not ended since, live if and only if the last accepted frame still counts and met a ready output not set since |
| `PolicyHistory.SucceedsExactly` | crates/omacam-core/src/lib.rs:143-241 | every operation succeeds or is refused, and with which error, for what the events before it tell |
| `PolicyHistory.ExpiresExactly` | crates/omacam-core/src/lib.rs:249-265 | a tick ends a session if and only if a consent stands and its last grant or refresh is 10 s old, or time has run out |
| `PolicyHistory.GenerationTold` | crates/omacam-core/src/lib.rs:177-278 | the generation counts the consents given and the sessions ended, modulo 2^64 |
| `PolicyHistory.ForgottenIsPowerless` | crates/omacam-core/src/lib.rs:143-284 | between a forget and the next trust event no authentication, request, consent, start, refresh or frame succeeds |
| `PolicyHistory.EveryRunCanGoLive` | crates/omacam-core/src/lib.rs:126-241 | from every reachable state eight events lead to live output, all of them succeeding |
| `ServiceRuntime.ServiceRuntime.Enqueue` | crates/omacam-daemon/src/service_runtime.rs:418-442 | a listed id is answered by its intent, a new one is appended and the oldest entries make room |
| `ServiceRuntime.ServiceRuntime.Finish` | crates/omacam-daemon/src/service_runtime.rs:466-491 | only a pending operation is finished |
| `ServiceRuntime.ServiceRuntime.InvalidateStop` | crates/omacam-daemon/src/service_runtime.rs:175-206 | the cancelling loop, the generation and the output change together, and the last cancelled operation becomes the last error |
| `ServiceRuntime.ServiceRuntime.InvalidateForget` | crates/omacam-daemon/src/service_runtime.rs:208-214 | invalidates, then revokes |
| `ServiceRuntime.ServiceRuntime.ConnectionLost` | crates/omacam-daemon/src/service_runtime.rs:216-225 | invalidates; a revoked peer goes offline rather than recovering |
| `ServiceRuntime.ServiceRuntime.PublishPolicy` | crates/omacam-daemon/src/service_runtime.rs:130-146 | a policy cannot hide a failed output, nor one it does not know |
| `ServiceRuntime.ServiceRuntime.PublishCamera` | crates/omacam-daemon/src/service_runtime.rs:227-247 | a camera report is taken for the armed generation only |
| `ServiceRuntime.ServiceRuntime.PublishCaptureStats` | crates/omacam-daemon/src/service_runtime.rs:249-256 | statistics are taken for the armed generation only, and always announced |
| `ServiceRuntime.ServiceRuntime.Stop` | crates/omacam-daemon/src/service_runtime.rs:361-384 | a new stop invalidates at once, and fails when nobody receives its intent; a repeated one changes nothing |
| `ServiceRuntime.ServiceRuntime.Forget` | crates/omacam-daemon/src/service_runtime.rs:386-408 | a new forget revokes at once, and fails when nobody receives its intent; a repeated one changes nothing |
| `ServiceRuntime.ServiceRuntime.AskToStart` | crates/omacam-daemon/src/service_runtime.rs:323-359 | a repeated start is accepted whatever the state; a new one only when it could begin, and it fails when nobody receives its intent |
| `ServiceRuntime.LedgerIsBounded` | crates/omacam-daemon/src/service_runtime.rs:418-442 | after any run: ids are distinct and the ledger holds the last 32 arrivals, or all of them |
| `ServiceRuntime.EntriesSettleOnce` | crates/omacam-daemon/src/service_runtime.rs:175-206 | an entry keeps its id and intent while listed, leaves pending at most once and never changes again; once evicted it does not return |
| `ServiceRuntime.StopSettlesStarts` | crates/omacam-daemon/src/service_runtime.rs:361-384 | no start or camera control that arrived before a stop's invalidation is ever pending after it |
| `ServiceRuntime.FailureLasts` | crates/omacam-daemon/src/service_runtime.rs:130-172 | a failed output stays failed through every publication and invalidation until it is set ready |
| `ServiceRuntime.ChangesAreAnnounced` | crates/omacam-daemon/src/service_runtime.rs:130-256 | below saturation a step that changes anything takes a new revision, except exactly an invalidation of an idle service with nothing to cancel that still drops a camera report or statistics, or neutralizes the output |
| `ServiceRuntime.SilentInvalidationHappens` | crates/omacam-daemon/src/service_runtime.rs:175-206 | three events that reach that exception |
| `ServiceRuntime.StatsVanishSilently` | crates/omacam-daemon/src/service_runtime.rs:175-256 | three events that reach it without any camera report: statistics vanish and no watcher is woken |
| `RuntimeHistory.EntriesAsTold` | crates/omacam-daemon/src/service_runtime.rs:175-491 | an entry is, as long as it is listed, what was reported of it: the first report under its id since it arrived, or the first invalidation if that came sooner and it is a start or a camera control |
| `RuntimeHistory.AdmitsExactly` | crates/omacam-daemon/src/service_runtime.rs:418-451 | after any run an id is new, repeated, in conflict or invalid exactly by what is listed and by its length |
| `RuntimeHistory.StartsExactly` | crates/omacam-daemon/src/service_runtime.rs:323-359 | a new start is admitted if and only if the peer is trusted and online, nothing is captured, the output is ready and the id is new |
| `RuntimeHistory.LastErrorIsLast` | crates/omacam-daemon/src/service_runtime.rs:148-206 | the last error is the operation that failed last, or the output that was lost after it |
| `RuntimeHistory.StateAsTold` | crates/omacam-daemon/src/service_runtime.rs:130-256 | what is published after any events is what the last of them said, field by field: a lost output is failed until set ready, a revoked peer is offline, reports count only for the armed generation |
| `Camera.ValidateCapabilities` | crates/omacam-core/src/camera.rs:81-133 | the loop with its growing id set succeeds exactly on plausible reports with distinct ids, and otherwise names the first fault |
| `Camera.FaultlessExactly` | crates/omacam-core/src/camera.rs:81-133 | naming the first fault and describing what a plausible report is come to the same |
| `Camera.ValidRequestsAreHonourable` | crates/omacam-core/src/camera.rs:159-318 | a request that validates asks for nothing the phone could not grant and validly report, if and only if the phone has a camera |
| `Camera.RequestsExactly` | crates/omacam-core/src/camera.rs:219-287 | a request is accepted if and only if the phone could do precisely that, asking only for what it says it has, in a mode its camera lists if it lists any; a phone without cameras is asked as if it had a plain one, except that none can be named |
| `Camera.ModeOfferedExactly` | crates/omacam-core/src/camera.rs:251-265 | the camera found by its id is the one meant, and the mode test is that one of its modes is within half a frame per second |
| `Camera.ReportsExactly` | crates/omacam-core/src/camera.rs:153-201 | a report of applied settings is accepted if and only if the capabilities are plausible and support every setting |
| `Camera.ReflectedExactly` | crates/omacam-core/src/camera.rs:289-318 | a report reflects a request if and only if putting what was asked into it would leave it where it is, up to the tolerances |
| `CameraSession.CameraSession.Activate` | crates/omacam-daemon/src/browser/session.rs:297-311 | makes the session live with a new revision |
| `CameraSession.CameraSession.Stop` | crates/omacam-daemon/src/browser/session.rs:313-324 | a second stop changes nothing |
| `CameraSession.CameraSession.ExpireHeartbeat` | crates/omacam-daemon/src/browser/session.rs:326-334 | stops a live session more than 8 s after its last heartbeat, and nothing else |
| `CameraSession.CameraSession.Enqueue` | crates/omacam-daemon/src/browser/session.rs:336-401 | refuses with the first reason that applies; an accepted command is pending, remembered, and changes no revision |
| `CameraSession.CameraSession.ExpirePending` | crates/omacam-daemon/src/browser/session.rs:403-428 | 10 s after acceptance a pending command is rejected |
| `CameraSession.CameraSession.CheckHeartbeat` | crates/omacam-daemon/src/browser/session.rs:443-496 | the checks of a heartbeat, in order, change nothing |
| `CameraSession.CameraSession.Merge` | crates/omacam-daemon/src/browser/session.rs:498-516 | an accepted heartbeat's settings, acknowledgement and revision land together |
| `CameraSession.CameraSession.AcceptHeartbeat` | crates/omacam-daemon/src/browser/session.rs:430-517 | a refused heartbeat leaves nothing behind but the deadline it noticed |
| `CameraSession.EveryStateIsSound` | crates/omacam-daemon/src/browser/session.rs:275-517 | in every reachable state a pending command means a live session and a start time, and a live session has settings, plausible capabilities and a fixed format |
| `CameraSession.StepCountsRevisions` | crates/omacam-daemon/src/browser/session.rs:297-517 | a step that changes status, capabilities or settings takes the next revision, exactly while there is one |
| `CameraSession.RevisionTellsView` | crates/omacam-daemon/src/browser/session.rs:297-517 | below saturation a revision number determines status, capabilities and applied settings over the whole run |
| `CameraSession.LastRevisionIsShared` | crates/omacam-daemon/src/browser/session.rs:513-515 | at saturation it does not: a run in which two states with the last revision differ |
| `CameraSession.AcceptedAgainstWhatWasRead` | crates/omacam-daemon/src/browser/session.rs:336-401 | an accepted command was checked against exactly the state the desktop read with its expected revision, and the phone can grant it if and only if that state lists a camera |
| `CameraSession.FormatStays` | crates/omacam-daemon/src/browser/session.rs:297-311 | the output format is fixed once the session has left waiting |
| `CameraSession.EveryCommandResolvedOnce` | crates/omacam-daemon/src/browser/session.rs:313-517 | every accepted command is resolved exactly once before the next: by an acknowledgement heard in time whose outcome says truly whether the settings reflect the request, by its deadline, or by the end of the session; the session shows the outcome of the last one |
| `CameraSession.IdsDistinctInWindow` | crates/omacam-daemon/src/browser/session.rs:366-397 | no id repeats within the last 256 accepted commands, and exactly those ids are remembered |
| `SessionHistory.SessionAsTold` | crates/omacam-daemon/src/browser/session.rs:297-517 | after any run: live exactly from the accepted offer to the first end; heartbeat time, cameras, settings and format are those of the last accepted offer or heartbeat that gave them |
| `SessionHistory.HeartbeatKeepsAlive` | crates/omacam-daemon/src/browser/session.rs:326-334 | a look at the heartbeat stops a live session if and only if more than 8 s have passed since the last accepted offer or heartbeat, and otherwise changes nothing |
| `SessionHistory.AcceptedExactly` | crates/omacam-daemon/src/browser/session.rs:336-496 | every command and every heartbeat is accepted or refused, and with which error, for what the events before it tell |
| `SessionHistory.DeadlineExactly` | crates/omacam-daemon/src/browser/session.rs:403-428 | the command under way is rejected from 10 s after its acceptance on, no sooner |
| `SessionHistory.HeardExactly` | crates/omacam-daemon/src/browser/session.rs:430-517 | a heartbeat resolves the command under way by its deadline if that has passed, otherwise if and only if it is accepted and names it, with the outcome that is true of the settings shown |
| `SessionHistory.RevisionCounts` | crates/omacam-daemon/src/browser/session.rs:297-517 | the revision is the number of missed deadlines, acknowledgements and changes of the view, until it saturates |
| `SessionHistory.WordsAreTheLast` | crates/omacam-daemon/src/browser/session.rs:297-517 | the error shown is the last word of the run, and the last command named is the last one decided |
| `PhoneProtocol.PhoneSession.Pulse` | webapp/phone.js:459-471 | at most one heartbeat cycle is under way |
| `PhoneProtocol.PhoneSession.TakeStateReply` | webapp/phone.js:473-488 | an answer from an older generation changes nothing; otherwise an apply step starts exactly for a pending command while none is taken on |
| `PhoneProtocol.PhoneSession.ApplyRemoteCommand` | webapp/phone.js:499-527 | a command already taken on is acknowledged again, not applied again |
| `PhoneProtocol.PhoneSession.EndApplying` | webapp/phone.js:510-527 | the apply step's result is what the acknowledgement will report |
| `PhoneProtocol.PhoneSession.TakeReceiptReply` | webapp/phone.js:529-548 | a command is forgotten only when the server no longer has it pending |
| `PhoneProtocol.PhoneSession.Finish` | webapp/phone.js:550-579 | ending locally starts a new generation and forgets the command |
| `PhoneProtocol.AppliedAtMostOnce` | webapp/phone.js:473-548 | with messages lost, delayed or repeated in either direction, the phone starts each accepted command's apply step at most once, in order, and ends it before the next |
| `PhoneProtocol.AcknowledgedWereApplied` | crates/omacam-daemon/src/browser/session.rs:430-517 | an outcome recorded from an acknowledgement reports the ended apply step of that command, or of one with the same id more than 256 acceptances earlier |
| `PhoneProtocol.VerdictExactly` | crates/omacam-daemon/src/browser/session.rs:463-491 | without id reuse the acknowledged command's apply step has ended, once, and the outcome is a rejection if and only if that step failed with an error to tell, which it then tells |
| `PhoneProtocol.FreedPhoneTakesNext` | webapp/phone.js:473-548 | once a received answer no longer shows the acknowledged command, the next received snapshot with a pending command of the session starts that command's apply step |
| `PhoneRuns.EveryListCanBeApplied` | webapp/phone.js:473-548 | for every list of ids the server would accept there is a run with no message lost in which each command is accepted, applied in order and acknowledged as applied |
| `PhoneRuns.GenuineExactly` | webapp/phone.js:499-548 | for every list of ids the server would accept: in all runs accepting them each acknowledged outcome is worth what the end of that very command's apply step is worth, if and only if no id occurs twice |
| `PhoneRuns.ReuseBreaks` | webapp/phone.js:502-506 | for every list with a repeated id, a run in which the phone acknowledges the second command without applying it |
| `PhoneRuns.AbortedIsShownApplied` | webapp/phone.js:499-527 | a run in which an aborted apply step is acknowledged without an error by the next cycle, and the server shows the command as applied |
| `Jpeg.JpegParser.Push` | crates/omacam-preview/src/main.rs:210-237 | one byte moves the parser as specified, with the frame or the error it completes |
| `Jpeg.ForwardJpegs` | crates/omacam-preview/src/main.rs:173-197 | frames and result depend on the bytes only, not on how reads cut them into chunks |
| `Jpeg.SplitsExactly` | crates/omacam-preview/src/main.rs:199-238 | the splitter ends between frames without error if and only if the input is frames (FF D8 up to the first later FF D9, at most 262144 bytes) separated by noise without FF D8; and then it gives exactly those frames, in every such reading |

## Left out

- TLS, sockets, mDNS, D-Bus, process spawning, GStreamer pipelines, the file system: effects outside the modelled logic. A failing pipe, decoder or mux is a final step, not something a run recovers from.
- Signatures, hashes, randomness and base64: transcripts are proved injective as bytes, and nothing is said about the keys that sign them.
- JSON and command-line parsing, HTTP status codes, bearer tokens and poll limits, diagnostics texts; error messages appear as constructors of a datatype.
- The pairing, control and invitation ceremonies, `ServiceRuntime::camera_control` and how capture statistics are computed: they would add only easy members.
- Desktop and phone user interfaces, camera switching, wake locks and the disconnect timer; `_finishLocal` may happen at any step instead.
- Floating point: frame rates, zoom and exposure are reals, so NaN and infinities, which a JSON number cannot carry, and rounding near the tolerances do not occur. JSON equality is equality of values.
- Time-outs of network reads, and reads interrupted by signals.
- Liveness under a lossy network: after a lost answer the phone may ignore later commands until the session ends. `PhoneProtocol.FreedPhoneTakesNext` says what frees it, and no fairness of the network is assumed.
- Forwarding.MediaArm: takes the received items one after the other; the other arms of the select loop, the published state and the statistics are not part of it, and the worker stays healthy.
- Forwarding.OutputLoop: asks for fewer than 2^64 records, because the source's counter says nothing beyond; the worker stays healthy and the stored preview image is not modelled.
- OutputWorker.PipeDelivers: covers successful calls only; what a partly written record leaves in a broken pipe is not modelled.
- PhoneEncoder.HexBytesExactly: hex strings are ASCII; digits of other scripts, which Kotlin's `isDigit` also accepts, are not modelled.
- PhoneProtocol.PhoneSession.EndApplying: the apply step is one step that succeeds, fails or is aborted; what it does to the camera is not modelled.
- CameraSession.CameraSession.Merge: the phone's statistics and the preview image kept beside the session are not modelled.
- ServiceRuntime.ServiceRuntime.AskToStart: is one call on its own; other calls may come between its separate critical sections, and a run then has its enqueuing as an event by itself.
- Service.ServiceOutput.BindTo: health checks, spawning and activation that fail are final steps; in `Mux` and `LiveOutput` they are steps that succeed.
- Service.ServiceOutput.ResetTo: a deactivation or a decoder that fails to stop is a final step; in `Mux` and `LiveOutput` they are steps that succeed.
- Service.ServiceOutput.ExecuteItem: a failed health check or decoder write is a final step.
- Rtc.FreshSender.Send: a disconnected output worker is a final step.
- CameraSession.CameraSession.Stop: the preview image kept beside the session is not modelled.
- CameraSession.CameraSession.AcceptHeartbeat: the phone's statistics kept beside the session are not modelled.
- PhoneProtocol.PhoneSession.Pulse: the counter that ends the session after three failed heartbeats is not modelled; the session may end at any step instead.
- PhoneProtocol.PhoneSession.Finish: releasing the stream, the peer connection and the timers, and telling the server, are not modelled.
- RawOutput.RawMux.Tick: the pacing of ticks is not modelled; a tick may come at any time.
