# Verified model of the NextUI cast pak

The pak captures the framebuffer of a handheld, encodes it with the Cedar H.264
hardware and serves the stream over HTTP or RTP. This project models the parts
where that can go wrong without anyone noticing, and proves what they promise.

- `Bytes`, `Text`: byte search, separators, base64 (section 4 of RFC 4648) and hexadecimal.
- `AnnexB`, `Framing`: start-code framing (section B.1 of ITU-T H.264), the
  rewrite of length-prefixed NAL units (section 5.3 of ISO/IEC 14496-15), and
  the output frame that wraps round the vendor's ring buffer.
- `Sdp`: the session description (sections 8.1 and 8.2.1 of RFC 6184) and a
  client that reads it.
- `Presets`: encoder parameters per quality and display size.
- `Nv12`: RGB565 and BGRA to NV12 in the fixed-point form of section 2.5 of ITU-R BT.601.
- `Pacing`: the normalised deadline and its drift.
- `Vendor`, `CedarRun`, `Start`: the foreign encoder library as an oracle that
  may fail any call, the rules for using it, and the encode loop run against it.
- `Lifecycle`, `Controller`: sessions as interleaved steps of commands and
  goroutines around one lock and one port; the controller object itself.
- `Handlers`, `StreamServer`: HTTP handlers around one encoder slot and its
  lock; the server object itself.
- `Rotate`: log rotation. `FitText`, `FitCache`: fitted text and its cache.

Each imperative source file keeps its form: loops and in-place arrays are
methods proved against functions, objects are classes. The two protocols are
transition functions from a state and an action to the next state, so "every
interleaving" is "every sequence of actions". The methods of
`Controller.Controller` and `StreamServer.Server` run against an arbitrary
schedule of everybody else's steps and log their own; the log is proved to be a
run of `Lifecycle` or `Handlers`, so what holds of all runs holds at every point
of these methods.

## What the proofs found

- A length-prefixed buffer whose first unit has length one passes as start-code
  framing. `RewriteExact` says exactly which buffers come out right.
- The SPS table announces 480 by 272 for a display of 640 by 368
  (`SizeAnnounced`). Its PPS selects arithmetic coding (`SetsExact`), which the
  announced profile excludes (section A.2.1 of ITU-T H.264).
- More than two parameter sets: everything behind the second start code is
  announced as the PPS (`SetsExact`).
- After a submission that was accepted, when encoding fails or the reclaim
  does, and the cleanup's reclaim fails too, the cleanup returns the buffer
  while the encoder still owns it. Calls still balance; `Run` says exactly when
  this happens (`dirty`), `DirtyReachable` that it does.
- Two overlapping start commands lose a session context for ever
  (`OverlappingStarts`, exactly when: `LossExact`).
- A stop ends the session only when no goroutine is between its entry and its
  last state update (`StopExact`); `UnreliableStop` is a run where one is.
- An SDP encoder started after its slot was emptied runs on out of reach
  (`OrphanExact`, `OrphanReachable`).
- `Stop` and then `Wait` with the slot lock held, in a handler or in the server's
  own stop, is not sure to end. Here an encoder is taken to exit only when told to.
  - An encoder that starts between the two calls was told nothing. When it
    streams, its client alone decides how long the lock is held (`HeldReachable`);
    when its handler served SDP and returned, nobody can end the wait
    (`StuckReachable`).
  - An encoder whose Cedar start failed, and whose handler does not have the lock
    yet, is waited for without end (`FailedStartSticks`, `ServerSticks`).
  - `HeldExact` says when the wait can end without that client leaving,
    `WaitExact` when it can end at all, and `HeldAhead` when it can still come to
    this. Meanwhile no handler registers, unregisters or cleans up.
- A font that is not monotone can hide a longer text from `fitText`
  (`KerningHides`); `FitExact` says exactly when the longest one is found.

## Model

| member | source | states |
|---|---|---|
| Bytes.Index | internal/stream/cedar_encoder.go:382-387 | the first occurrence of a pattern, or that there is none |
| AnnexB.NoStraddle | internal/stream/cedar_encoder_linux_arm64.c:543-557 | the start code does not overlap itself: behind a clean NAL unit the first match is the delimiter |
| AnnexB.SplitEncode | internal/stream/cedar_encoder_linux_arm64.c:546-557 | cutting a stream at start codes returns every clean NAL unit in order |
| AnnexB.EncodeSplit | internal/stream/cedar_encoder.go:382-392 | framing the pieces again gives back any byte string |
| AnnexB.StartCoded | internal/stream/cedar_encoder_linux_arm64.c:546-554 | every unit stands behind three zero bytes and a one |
| Framing.ReadsBack | internal/stream/cedar_encoder_linux_arm64.c:549-552 | a 32-bit length prefix reads back as the length written |
| Framing.WritesBack | internal/stream/cedar_encoder_linux_arm64.c:549-552 | the length read determines the four prefix bytes |
| Framing.BigEndian | internal/stream/cedar_encoder_linux_arm64.c:549-552 | the most significant byte of a length comes first |
| Framing.UnitsPrefix | internal/stream/cedar_encoder_linux_arm64.c:546-557 | on arbitrary bytes the units found are, prefixes included, the head of the bytes |
| Framing.UnitsLongest | internal/stream/cedar_encoder_linux_arm64.c:546-557 | every other list of complete non-empty units the bytes begin with is a prefix of the list found |
| Framing.SameLength | internal/stream/cedar_encoder_linux_arm64.c:554-556 | as many bytes are written as were consumed |
| Framing.UnitsLeave | internal/stream/cedar_encoder_linux_arm64.c:546-557 | any bytes are complete units followed by bytes that begin with none |
| Framing.ForwardedExact | internal/stream/cedar_encoder_linux_arm64.c:542-558 | of such bytes, start-coded ones pass unchanged; otherwise the units are sent start-coded and the rest is dropped |
| Framing.RewriteExact | internal/stream/cedar_encoder_linux_arm64.c:542-558 | length-prefixed input comes out start-coded if and only if the first unit is not of length one, or all are |
| Framing.RewriteFails | internal/stream/cedar_encoder_linux_arm64.c:543-544 | a buffer for which the rewrite goes wrong |
| Framing.EmittedIsAnnexB | internal/stream/cedar_encoder_linux_arm64.c:511-563 | a run of buffers in mixed framings is emitted as the start-coded list of all their NAL units |
| Framing.StreamSplits | internal/stream/cedar_encoder_linux_arm64.c:542-558 | a receiver gets SPS, PPS and then every NAL unit of every frame, in order |
| Framing.WrapTransparent | internal/stream/cedar_encoder_linux_arm64.c:519-541 | for every ring, start and length, and whatever the allocated memory held, the bytes seen are the logical frame |
| Framing.Reassemble | internal/stream/cedar_encoder_linux_arm64.c:528-537 | the copies stay inside the total and give both regions in order, cut at the total, or with the old memory behind them |
| Framing.RewriteUnits | internal/stream/cedar_encoder_linux_arm64.c:546-557 | the loop writes the start-coded form of the units found |
| Framing.Rewrite | internal/stream/cedar_encoder_linux_arm64.c:543-558 | start-coded buffers pass unchanged, others are rewritten |
| Framing.ForwardOutput | internal/stream/cedar_encoder_linux_arm64.c:522-561 | one output, wrapped or not, with regions larger or smaller than the total, with or without memory to join them, reaches the writer as the forwarded form of its payload |
| Text.Base64RoundTrip | internal/stream/cedar_encoder.go:411-412 | base64 decoding undoes encoding on every byte string |
| Text.Alphabet | internal/stream/cedar_encoder.go:411-412 | the character of each six-bit value is that of the standard alphabet |
| Text.GroupBits | internal/stream/cedar_encoder.go:411-412 | four characters carry the bits of three bytes in order |
| Text.Vectors | internal/stream/cedar_encoder.go:411-412 | test vectors of RFC 4648, padding included |
| Text.HexRoundTrip | internal/stream/cedar_encoder.go:396 | reading hexadecimal undoes printing it |
| Text.HexExact | internal/stream/cedar_encoder.go:396 | a byte is two upper-case digits, the high one first |
| Sdp.SetsExact | internal/stream/cedar_encoder.go:379-395 | which parameter sets are found in arbitrary bytes, and when none are |
| Sdp.BuildExact | internal/stream/cedar_encoder.go:377-415 | nothing is served, or a client reads back the sets found and SPS bytes 1 to 3 |
| Sdp.PreambleExact | internal/stream/cedar_encoder.go:401-408 | the eight lines in front of the parameters, with the host, port 5004 and payload type 96 |
| Sdp.FmtpExact | internal/stream/cedar_encoder.go:409 | the names of the format parameters |
| Sdp.BuildLines | internal/stream/cedar_encoder.go:396-414 | what is served is those lines for the given host, or exactly for none the multicast address, then the format parameters, and nothing more |
| Sdp.RoundTrip | internal/stream/cedar_encoder.go:377-415 | start code, SPS, start code, PPS: a client reads back exactly that SPS, that PPS and the profile bytes |
| Presets.Align16 | internal/stream/cedar_presets.go:25-27 | the least multiple of sixteen that is not below the argument |
| Presets.PresetFacts | internal/stream/cedar_presets.go:63-87 | every accepted preset has a convertible size that indexes in 32 bits and a rate of 15 or 30 |
| Presets.PresetExact | internal/stream/cedar_presets.go:53-87 | the rate, key frame distance and bit rate of each quality, and which sizes and names are refused, the size first |
| Presets.PresetSplits | internal/stream/cedar_presets.go:31-51 | the table's bytes split into exactly one SPS and one PPS |
| Presets.SizeAnnounced | internal/stream/cedar_presets.go:31-51 | the SPS of a supported size, decoded bit by bit, announces that size, uncropped, if and only if it is not 640 by 368 |
| Presets.SetsExact | internal/stream/cedar_presets.go:31-51 | unit types, baseline profile, level, and a PPS that selects arithmetic coding and ends in its stop bit |
| Presets.PresetAnnounced | internal/stream/cedar_presets.go:31-51 | every accepted preset is announced so that a client reads back its own parameter sets |
| Nv12.ColourAccurate | internal/stream/cedar_encoder_linux_arm64.c:225-238 | for every colour each code is the nearest to the eight-bit coefficients' value, no clamp bites, and it is within less than one of the standard's formula |
| Nv12.Expand565Exact | internal/stream/cedar_encoder_linux_arm64.c:247-250 | red, green and blue are the high five, middle six and low five bits stretched to a byte, rounded down |
| Nv12.GreyIsNeutral | internal/stream/cedar_encoder_linux_arm64.c:233-238 | every grey maps to the middle chroma codes |
| Nv12.RowsSize | internal/stream/cedar_encoder_linux_arm64.c:244-259 | how far the chroma cursor runs over a frame |
| Nv12.ChromaAt | internal/stream/cedar_encoder_linux_arm64.c:253-258 | an even row and column finds its chroma at (row/2)*stride+col, the stride being the width when that is even |
| Nv12.ChromaFits | internal/stream/cedar_encoder_linux_arm64.c:399-401 | the half plane requested holds the chroma if and only if both sides are even, and then exactly |
| Nv12.Rgb565Row | internal/stream/cedar_encoder_linux_arm64.c:246-259 | one row fills exactly its luma and its chroma and nothing else |
| Nv12.Rgb565ToNv12 | internal/stream/cedar_encoder_linux_arm64.c:240-261 | both planes equal the pointwise specification, bytes behind them are untouched |
| Nv12.BgraRow | internal/stream/cedar_encoder_linux_arm64.c:269-280 | one row fills exactly its luma and its chroma and nothing else |
| Nv12.BgraToNv12 | internal/stream/cedar_encoder_linux_arm64.c:263-282 | both planes equal the pointwise specification, bytes behind them are untouched |
| Nv12.FormatsAgree | internal/stream/cedar_encoder_linux_arm64.c:240-282 | at every size a 16-bit frame and any 32-bit frame whose bytes are its bit fields stretched fill equal luma and chroma planes |
| Pacing.Timespec.Advance | internal/stream/cedar_encoder_linux_arm64.c:286-293 | the deadline stays normalised and moves by exactly one step |
| Pacing.NormalUnique | internal/stream/cedar_encoder_linux_arm64.c:286-293 | the normalised form of a deadline is unique |
| Pacing.DeadlineIs | internal/stream/cedar_encoder_linux_arm64.c:585 | after n frames the deadline is start + n steps |
| Pacing.Drift | internal/stream/cedar_encoder_linux_arm64.c:433 | for rates up to a million the deadline lags by less than n nanoseconds over n frames, never exactly when the rate divides a second, and leads the timestamps by at most 999n |
| Vendor.Nested | internal/stream/cedar_encoder_linux_arm64.c:592-607 | in a legal trace every resource stands on the one below it at every moment |
| Vendor.Ledger | internal/stream/cedar_encoder_linux_arm64.c:592-607 | takes and gives differ by exactly what is held, and each stage is taken at most once |
| Vendor.ClosedIsBalanced | internal/stream/cedar_encoder_linux_arm64.c:592-607 | a legal trace that ends closed returned every input buffer, freed every output and released each stage once |
| Vendor.FetchedAll | internal/stream/cedar_encoder_linux_arm64.c:500-576 | in a trace in the source's order that ends closed every accepted frame is encoded, output is asked for until none is left, each output is freed, and only then is the frame taken back |
| Vendor.DirtyReachable | internal/stream/cedar_encoder_linux_arm64.c:500-505 | for any sizes, pixels and frame, a legal closed trace with every call, check and poll of such a run, in the source's order, returns a buffer the encoder still owns: it was accepted, encoding failed and so did the cleanup's reclaim |
| CedarRun.Session.Setup | internal/stream/cedar_encoder_linux_arm64.c:329-428 | whatever fails, the flags describe exactly what is held |
| CedarRun.Session.Capture | internal/stream/cedar_encoder_linux_arm64.c:468-489 | the input planes hold the conversion of the framebuffer read |
| CedarRun.Session.Submit | internal/stream/cedar_encoder_linux_arm64.c:492-506 | flags, timestamp and duration of the submitted frame |
| CedarRun.Session.Drain | internal/stream/cedar_encoder_linux_arm64.c:511-563 | output is asked for until there is none or it is not given; every output obtained is forwarded and freed |
| CedarRun.Session.Recycle | internal/stream/cedar_encoder_linux_arm64.c:570-581 | the buffer is reclaimed and returned before the next is taken |
| CedarRun.Session.EncodeFrame | internal/stream/cedar_encoder_linux_arm64.c:437-587 | one turn of the loop keeps the run's invariant or fails with it intact |
| CedarRun.Session.EncodeLoop | internal/stream/cedar_encoder_linux_arm64.c:436-590 | zero is returned only after a stop or the frame limit, with nothing failed |
| CedarRun.Session.Cleanup | internal/stream/cedar_encoder_linux_arm64.c:592-606 | from any stage everything held is released in order |
| CedarRun.PictureExact | internal/stream/cedar_encoder_linux_arm64.c:247-250 | the colour of a pixel, told by its two or four framebuffer bytes |
| CedarRun.ExpectedExact | internal/stream/cedar_encoder_linux_arm64.c:492-495 | a submission fills the pool's planes with the nearest codes, is first or last as it should be, and its time stamp is the end of the one before |
| CedarRun.Run | internal/stream/cedar_encoder_linux_arm64.c:297-614 | for every schedule of answers: each call is good exactly when its answer is zero; the calls come in the source's order, legal and closed; all output is fetched; pool and reads have the frame's sizes; submissions are the converted reads, deadlines and written bytes the specified ones; zero is returned if and only if nothing failed, and a buffer the encoder owns is returned if and only if no reclaim since the last accepted submission gave it back |
| Start.PresetPlanesFit | internal/stream/cedar_encoder_linux_arm64.c:399-401 | for every accepted preset the chroma plane requested is filled exactly |
| Start.StartRaw | internal/stream/cedar_encoder.go:129-166 | the writer gets the parameter sets first, then what a run with the preset's own width, height and rate emits; an error is reported if and only if the first write or a fatal call fails, and after a failed first write the loop is not entered |
| Start.Received | internal/stream/cedar_encoder.go:136-157 | a receiver of that output gets the preset's SPS and PPS and then every NAL unit |
| Lifecycle.InvStep | internal/cast/controller.go:152-275 | every step of every command, goroutine or server keeps the ownership invariant |
| Lifecycle.PublishFindsEmpty | internal/cast/controller.go:264-267 | a publication that is due finds no published server and no taken one |
| Lifecycle.NoServerLost | internal/cast/controller.go:152-275 | after every interleaving at most one server listens, it has exactly one kind of owner, none was stopped twice and no publication overwrites one |
| Lifecycle.StateExact | internal/cast/controller.go:139-146 | after any run the state is the one reported last: streaming by a goroutine, error by a missing network or port, idle by a stop or when none was |
| Lifecycle.ServerExact | internal/cast/controller.go:169-175 | the server in the controller and its session time are those of the last publication, unless taken since |
| Lifecycle.CancelExact | internal/cast/controller.go:160-163 | the context in the controller is the last one installed, unless taken since |
| Lifecycle.EndsCancelled | internal/cast/controller.go:274 | a goroutine that got its server started ends only after its context was cancelled |
| Lifecycle.LossExact | internal/cast/controller.go:160-163 | after any run a session context is uncancellable if and only if some installation in the run found its cancel function in place |
| Lifecycle.OverlappingStarts | internal/cast/controller.go:152-166 | two overlapping start commands that lose a context |
| Lifecycle.SerialSafe | internal/cast/controller.go:152-185 | with serialised commands nothing is ever lost |
| Lifecycle.ContextBetweenCommands | internal/cast/controller.go:152-185 | between serialised commands a context is uncancelled if and only if it is the one in the controller |
| Lifecycle.OvertakenStop | internal/cast/controller.go:259-274 | any goroutine in flight can undo a stop afterwards |
| Lifecycle.StopExact | internal/cast/controller.go:168-185 | a stop leaves state idle, no listening server and no session time for good if and only if no goroutine was in flight when it took the session |
| Lifecycle.UnreliableStop | internal/cast/controller.go:152-185 | a run from the start that reaches such a stop |
| Controller.RestartsOnlyOnChange | internal/cast/controller.go:62-112 | a setting counts as a change if and only if it alters the configuration, and repeating it never does |
| Controller.Controller.StopServer | internal/cast/controller.go:168-185 | whatever others do in between, it takes the session, cancels the context taken, stops the server taken and leaves the idle state, in this order, as a run of the transition system |
| Controller.Controller.StartServer | internal/cast/controller.go:152-166 | the same, then the network test, then the installation and the goroutine, or the error state |
| Controller.Controller.PublishServer | internal/cast/controller.go:264-267 | in every interleaving the publication finds the field empty |
| Controller.Controller.HandleSession | internal/cast/controller.go:54-59 | a start or stop command makes exactly these steps in this order, and spawns a goroutine if and only if it is a start and the network is up |
| Controller.Controller.RunServer | internal/cast/controller.go:187-275 | network test, listener, publication, streaming report and wait in this order, as a run of the transition system; the state is then streaming unless reported otherwise since, or error when there is no network or listener |
| Controller.Controller.HandleSetting | internal/cast/controller.go:54-112 | the configuration stored, and a restart if and only if it changed while streaming |
| Controller.AppliedExact | internal/cast/controller.go:62-112 | which field each setting changes, and that the low-latency transports force the highest quality |
| Controller.NormalizeExact | internal/cast/controller.go:283-292 | which names, in lower case and without outer blanks, mean which transport |
| Controller.SpacesAre | internal/cast/controller.go:284 | which code points count as blanks |
| Controller.BlanksIgnored | internal/cast/controller.go:284 | a blank before or after a name does not matter |
| Controller.NormalizeIdempotent | internal/cast/controller.go:283-292 | a stored transport name means itself when it is read again |
| Handlers.InvStep | internal/stream/server.go:156-276 | every step of every handler, encoder or server stop keeps the slot invariant |
| Handlers.EncoderExact | internal/stream/server.go:156-276 | everything that ever happens to an encoder: started by its handler, told to stop by its client's leaving or by whoever finds it in the slot, exits by itself |
| Handlers.SlotExact | internal/stream/server.go:156-262 | after any run an encoder is in the slot if and only if its handler installed it and no step since has emptied the slot or given it up |
| Handlers.NothingLeftBehind | internal/stream/server.go:230-276 | a streaming handler that returned, its start failed or not, has no running and no registered encoder |
| Handlers.OthersUntouched | internal/stream/server.go:156-164 | a handler affects another's encoder only while installing, and its clean-up never does |
| Handlers.OrphanExact | internal/stream/server.go:166-196 | a running encoder is out of reach if and only if its slot was no longer its own before the step of the run that started it, and only SDP handlers leave one |
| Handlers.OrphanReachable | internal/stream/server.go:166-196 | such an encoder does occur |
| Handlers.WaitBegins | internal/stream/server.go:157-160 | whoever begins to wait has just told the registered encoder to stop |
| Handlers.RunningExact | internal/stream/server.go:157-176 | a wait finds its encoder running if and only if it was started after that step and has neither exited nor lost its client since |
| Handlers.StuckForever | internal/stream/server.go:157-161 | whoever waits, lock in hand, for an encoder whose start failed or came after the stop, its handler gone, holds the lock in every continuation in which no running encoder exits unasked |
| Handlers.WaitExact | internal/stream/server.go:157-164 | in some such continuation an installation or the server's stop gets through if and only if it is not waiting for such an encoder |
| Handlers.HeldWhileClientStays | internal/stream/server.go:157-161 | waiting for an encoder that was started after the stop, or failed to start, the lock is held in every such continuation in which that encoder's client stays |
| Handlers.HeldExact | internal/stream/server.go:157-164 | the wait can end without that client leaving if and only if the encoder is not running and its start has not failed |
| Handlers.HeldAhead | internal/stream/server.go:157-176 | before the wait ends the lock can come to be held like this if and only if it is already, or the handler waited for has registered and not started yet |
| Handlers.HeldReachable | internal/stream/server.go:157-161 | a wait for a streaming client does occur, with no SDP request |
| Handlers.StuckReachable | internal/stream/server.go:157-176 | an encoder started between stop and wait does occur |
| Handlers.FailedStartSticks | internal/stream/cedar_encoder.go:369-375 | so does one whose start failed and whose done channel stays open |
| Handlers.ServerSticks | internal/stream/server.go:671-677 | the server's own stop gets stuck the same way |
| StreamServer.Server.Start | internal/stream/server.go:81-109 | refused if and only if already started or the port is taken |
| StreamServer.Server.Register | internal/stream/server.go:156-164 | whatever others do in between, it locks, stops, waits and installs in this order; a handler that does not get through waits for the lock, or has it and waits for an encoder that has not exited, which runs if and only if it was started after it was told to stop |
| StreamServer.Server.Unregister | internal/stream/server.go:231-235 | after a failed start the handler's encoder is neither alive nor in the slot, as one step of the transition system |
| StreamServer.Server.CleanUp | internal/stream/server.go:255-262 | the same after a stream, once the lock is free |
| StreamServer.Server.Handle | internal/stream/server.go:156-276 | a request makes the steps of the source in its order, on every way out and up to every wait it can be in; a failed or finished one leaves no live and no registered encoder |
| StreamServer.Server.Stop | internal/stream/server.go:664-686 | the listener goes exactly when the slot could be emptied, and then a second call changes nothing more; otherwise the lock is taken, and if by this call, its encoder was told to stop, has not exited, and runs if and only if it was started since |
| Rotate.SplitRuns | internal/logger/rotate.go:41-58 | the loop computes the grouping of the lines |
| Rotate.RunsBegin | internal/logger/rotate.go:41-58 | a run begins behind the first byte if and only if a newline is before it and its line contains the sentinel |
| Rotate.RunsJoin | internal/logger/rotate.go:41-58 | the runs are non-empty and joined give the data back |
| Rotate.SuffixStable | internal/logger/rotate.go:23-35 | splitting the join of any suffix of runs gives those runs back |
| Rotate.RetainedLongest | internal/logger/rotate.go:24-34 | what stays is at most four runs and ten megabytes, or one run, and no longer suffix is |
| Rotate.Idempotent | internal/logger/rotate.go:18-39 | rotating twice is rotating once |
| Rotate.RotateLog | internal/logger/rotate.go:18-39 | the file holds the rotated content, written only when it differs |
| Rotate.AppendBound | internal/logger/rotate.go:41-58 | appending makes at most as many runs as the parts have together, whatever the seam does |
| Rotate.RoomForNext | internal/logger/rotate.go:8-11 | with one more run a rotated log holds at most five |
| FitText.FitLoop | internal/ui/split_layout.go:1054-1086 | the loop computes the search |
| FitText.FitWhole | internal/ui/split_layout.go:1054-1065 | a text that fits comes back as it is, and so does any without font, text or limit |
| FitText.FitAny | internal/ui/split_layout.go:1054-1086 | with any measure a shortened text measured within the limit and one more character did not, and nothing is shown exactly when the ellipsis does not fit |
| FitText.FitLongest | internal/ui/split_layout.go:1067-1085 | with a monotone measure that never fails the result is the longest cut that fits |
| FitText.FitExact | internal/ui/split_layout.go:1067-1085 | with any measure, failing or not, the longest fitting cut is found if and only if every midpoint met on the way to it fits |
| FitText.KerningHides | internal/ui/split_layout.go:1070-1084 | a measure that is not monotone for which it is not |
| FitCache.KeyInjective | internal/ui/split_layout.go:147 | no two lookups share a key |
| FitCache.RenderCache.FitText | internal/ui/split_layout.go:140-154 | a lookup returns what the direct computation would, and keeps every entry |
| FitCache.RenderCache.FitAll | internal/ui/split_layout.go:140-154 | so does every sequence of lookups |

## Left out

- Rgb565Row, BgraRow, RewriteUnits, RotateLog: the source writes loop and body, or two loops, in one function; here a part is a method of its own.
- CedarRun.Session: the source keeps these variables local to one function and jumps to one label; here they are fields, and an early return goes to the cleanup.
- CedarRun.Run: second and later input buffers are taken to have non-null planes, which the source does not check, and an infinite schedule has no exit to speak about.
- Start.StartRaw: a writer that fails after the first write is ignored by the source too; the muxed and RTP outputs are not modelled.
- Writer failures: the source ignores the result of its write callback, and the model's writer never fails; chunks over 2^30 bytes are not modelled.
- Framing.ForwardOutput: sizes and pointers that make the source read memory it may not are excluded, as it cannot check them.
- Nv12: the 32-bit wrap of pixel indices; `PresetFacts` shows that no accepted preset reaches it.
- Sdp: hosts that hold a line feed; the server takes the host from a socket address.
- Lifecycle: failures of commands that only read state or store settings; a restart caused by a setting is a start command that may begin at any moment.
- Lifecycle: `StopSrv` assumes that stopping a server returns; when it does not is the subject of `Handlers.WaitExact`.
- Controller.RunServer: the wait for cancellation ends when the schedule of the others does.
- Lifecycle.StopExact: only goroutine steps follow the stop, no further command.
- Controller.Normalize: letters outside A to Z are not folded; none of them folds to a letter of the six names.
- Handlers: requests that fail before an encoder exists, and redirects.
- Handlers: that an encoder told to stop does exit, and that one not told runs on, are assumptions where continuations are spoken of; the invariants need neither.
- StreamServer.Server: a wait ends when the schedule of the others does.
- FitCache: quoting is any injective function, and a font address always measures alike.
- FitText: text is a sequence of characters, so invalid UTF-8 is not modelled; a nil cache is the direct call.
- The synthetic checker pattern, logging, dynamic loading, ioctl and cgo handles.
- ffmpeg processes, pipes, HTTP headers, SSDP, DIDL and SOAP text, manifest URL and MIME choice.
- Stream metrics, bitrate formatting and wall-clock time.
- IPC framing, the configuration file, WiFi and ALSA probes, the rest of the user interface.
