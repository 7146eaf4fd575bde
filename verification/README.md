# Verification of the AIALRA recording, scheduling, playback, teaching and event cores

A Dafny model of the parts of the system in which a course can be lost, repeated, starved or
misreported, and proofs about them. `dafny verify dfyconfig.toml` checks everything.

## What is modelled

**The audio path, from the microphone to ASR windows.**
`Resampler` is the browser's streaming resampler over exact reals; `Direct` is the linear
interpolation of the whole recording, and every split into worklet blocks gives exactly that. What
that sounds like is said without it: straight lines stay the same lines, mixtures stay mixtures, and
a sample depends on its two neighbours.
`Capture` is the part of `BrowserCapture` that collects samples and cuts one-second frames; what it
hands over is a function of the samples it has accepted.
`FrameCodec` is the byte layout that browser and Core share. `Segmenter` is the one-shot cut of a
recording into groups, for any rule, with the fact that makes incremental work possible: more audio
never moves a cut. `Windows` gives the rule of the source (six seconds minimum and a pause, or
twenty-four seconds) and what a window is. `Assembler` holds Core's audio tables as an object and
proves one uninterrupted `assemble_source` against the one-shot cut. `AssemblyRuns` interleaves any
number of runs, arriving frames, a stop and Core restarts, statement by statement. `Outbox` is the
recording page with its durable outbox, next number and stop intent; the blocks of the worklet are
cut into frames by the functions of `Capture`. `AudioProtocol` puts page, network and Core together;
`AudioRecovery` shows that no state is a dead end, `MissedTail` how the stop flush can miss the tail.

**GPU admission.** `GpuScheduler` (module `Scheduling`) has the state machine of the agent's
condition variable and the scheduler object whose methods are proved to be its steps; who starts and
who sleeps is also told by the tasks alone, without the counters (`MayStart`). `WorkerGate` is the
worker-side gate that survives disconnected callers.

**Whole-course playback.** `Decimals` and `ByteRange` are the Range header, `Playback` the virtual WAV
file served by byte range and by time segment, `PlaybackIndex` the map from capture time to playback
time. `PlayedRecording` compares what is played, by capture time, with what was recorded, by sequence.

**The teaching compiler.** `TextBatches` splits and batches by UTF-8 size, `CourseCompiler` tiles a
course, `CourseOverview` reduces the overview and `OverviewLimits` shows how far legal replies carry,
`Repetition` is the receiver's test for output that repeats itself, `TeachingRequests` checks every
request against what the receiver enforces.

**Events and editing.** `EventLog` emits under stable keys, `EventStream` replays and streams,
`DocumentTranslation` decides which translation is shown, `FolderTree` guards folder moves.

## Findings

The model follows the code. Where a promise does not hold for all inputs, the exact condition is
proved.

- The stop flush can miss the tail of a course. `assemble_source` lists the chunks and reads the
  cursor in two statements; a background run that records a window in between makes the flush stop
  at once. From the first sample on there is such a run, with the flush in it, for every recording of
  more than twenty-four seconds (`MissedTail.FlushMissesTheTail`). A sealing run that is not killed ends with the whole
  recording in windows exactly when the cursor did not move between its two reads, or another run
  recorded the last window (`AudioProtocol.SealingRunEndsIff`). The audio is not lost: the next sealing
  run, such as the one after a restart, takes it.
- The synthesis request of a teaching card can be refused. The sender admits 6200 bytes, the receiver
  4000 characters; two ASCII drafts of 2100 characters are sent and refused
  (`TeachingRequests.LongDraftsAreRefused`, exact condition in `GroupRequestIff`). A request for the
  definition of one term is refused exactly when the term has more than 160 characters, while the
  same term is accepted beside another one (`DefinitionRequestIff`, `LongTermIsRefused`). All prose and
  overview requests, and the text, context and terms of all other definition requests, are accepted.
- The reduction of the overview can give up although every reply is legal: short enough, shorter than
  its request, long enough for a long one, and without repetition. Two chapters of 700 three-byte
  characters are enough (`OverviewLimits.TwoFullChaptersCanFail`). The overview is written, whatever the
  legal replies are, if the notes fit 3500 bytes, or if one pass leaves less than there was and at most
  3500 bytes and two for each further chapter (`CourseOverview.OverviewIsWritten`); no note above 3500
  bytes and 3500 bytes with two for each chapter is such a case (`ShortNotesAreWritten`). For notes that
  make two batches this condition is exact (`TwoBatchesIff`). From four batches on no notes are safe: up
  to 352 chapters, as long as every batch has three bytes more than there are chapters, there are legal
  replies that never lead to an overview (`FourBatchesCanFail`).
- Delivery over reconnects depends on the order in which keys are inserted. A reconnect sends exactly
  the events with a greater key than the event received last, which need not be the greatest one
  received (`EventStream.ReconnectDelivers`). So an event that has not been received and is not greater
  is left out, for ever (`DeliverableIff`, `LateEventIsLost`), and one that has been received and is
  greater comes again (`SeenEventComesAgain`). The browser ends with every event once exactly when it
  had the events up to the last one it received (`ReconnectIsCompleteIff`).
- A course is played in the order in which it was recorded exactly when the clock of the page never
  went back (`PlayedRecording.PlayedIsWhatWindowsHold`); the clock is read anew for every frame and
  nothing keeps it from being set back (`SteadyClockIff`). Two seconds with the clock set back in
  between are played the wrong way round, while their windows are in order (`StepBackSwaps`).
- A paragraph that nobody has corrected can show a translation that was made from another text
  (`DocumentTranslation.ForeignTranslationIff` gives the one case).
- Sealing early is the only cut that later audio contradicts (`Segmenter.SealIsStableIff`).

## Assumptions

- One live `BrowserCapture` writes for one session and source, and a revoked one has finished its
  write chain before `finishPending` runs. Sequence numbers and clock values stay below 2^53 - 1.
- IndexedDB and SQLite transactions are atomic and do not fail; the tab's session storage keeps the
  stop intent. Object hashes and name-based UUIDs do not collide.
- The store's list of unassembled chunks is sorted and is everything above the cursor. A sealing run
  starts only after the session has left the recording state, and the page asks to stop the session
  only after all its audio is acknowledged.
- Emission of an event is one atomic insert and broadcast; the identity of an event is used once.
- Session names hold no colon: then the keys of chunks are different (`EventLog.CommitKeyIsUnique`).
- Case folding maps characters to characters, and blanks to blanks. `DefinitionRequestIff` is about
  texts without the two characters outside ASCII that fold into it (U+017F and U+212A).

## Model

| member | source | states |
|---|---|---|
| Resampler.CountExact | apps/web/src/audio.ts:76-90 | an output sample exists exactly when its position lies before the end of the input; the count is ceil(n * 16000 / rate) |
| Resampler.StreamingResampler.Push | apps/web/src/audio.ts:60-70 | whatever was pushed before, the outputs so far are exactly the reference samples whose two neighbours have come, and one sample is retained after a nonempty push |
| Resampler.PushedGrows | apps/web/src/audio.ts:60-90 | later input only adds outputs behind those already returned |
| Resampler.StreamingResampler.Drain | apps/web/src/audio.ts:72-90 | every index is in bounds; each emitted sample is the reference interpolation; without the final flag it stops where the next sample is not settled |
| Resampler.StreamingResampler.Flush | apps/web/src/audio.ts:92-103 | everything returned since the last flush is the reference output of everything pushed, and the object is as new |
| Resampler.StreamingResampler.Compact | apps/web/src/audio.ts:105-114 | dropping consumed samples keeps the stream and leaves one anchor sample |
| Resampler.Resample | apps/web/src/audio.ts:37-44 | one push and one flush give the reference output; a rate that is not positive is refused |
| Resampler.ResampleBlocks | apps/web/src/audio.ts:46-103 | block invariance: any split of the input gives the same output as the whole |
| Resampler.LineIsKept | apps/web/src/audio.ts:76-86 | a straight line over time comes out as the same line at 16 kHz: output k is what is heard k / 16000 seconds after the beginning, for every rate |
| Resampler.EndIsHeld | apps/web/src/audio.ts:82-85 | outputs behind the last input sample hold it |
| Resampler.MixtureIsKept | apps/web/src/audio.ts:76-86 | resampling is linear: a mixture of two recordings becomes the mixture of what they become |
| Resampler.OnlyNeighboursMatter | apps/web/src/audio.ts:81-85 | an output depends only on the input samples less than one sample period away; with the line and linearity no other kernel is left |
| Resampler.SecondIsSecond | apps/web/src/audio.ts:76-90 | one second of input becomes one second of output |
| Capture.BrowserCapture.AppendSamples | apps/web/src/audio.ts:568-576 | frames have exactly 16000 samples, and queued frames with the remainder are the stream, sample for sample |
| Capture.BrowserCapture.TakeSamples | apps/web/src/audio.ts:578-591 | takes exactly the first samples, over however many chunks they span |
| Capture.BrowserCapture.AcceptSamples | apps/web/src/audio.ts:560-566 | blocks outside a recording leave no trace; queued frames never change, and they are the whole seconds of what the samples accepted so far determine |
| Capture.BrowserCapture.SealInput | apps/web/src/audio.ts:464-479 | after stop the queued frames, the last one shorter, are the resampled recording and nothing else; after a revocation the outputs are missing whose second neighbour never came |
| Capture.FramesAreUnique | apps/web/src/audio.ts:568-576 | there is one way to cut whole seconds off a stream: the queue is a function of it |
| FrameCodec.FrameRoundTrip | crates/core-server/src/audio.rs:134-150 | Core accepts every frame of up to three seconds and reads back number, time and samples as written |
| FrameCodec.RefusedIff | crates/core-server/src/audio.rs:134-150 | a frame is refused exactly for its size, for the number zero or for half a sample, in this order |
| FrameCodec.AcceptedIsWritten | crates/core-server/src/audio.rs:134-150 | an accepted frame is number, time and samples as they are read, byte for byte |
| FrameCodec.ParseFrameInjective | crates/core-server/src/audio.rs:134-150 | messages that Core reads as one frame are the same bytes |
| FrameCodec.PcmRoundTrip | apps/web/src/audio.ts:122-126 | the bytes read back as little-endian samples are the samples rounded to the nearest step, 32768 below zero and 32767 above |
| FrameCodec.QuantisedIsNear | apps/web/src/audio.ts:122-126 | a sample in range is heard within one step of its value |
| FrameCodec.QuantisedIsMonotone | apps/web/src/audio.ts:122-126 | a greater sample is never heard as a smaller value |
| FrameCodec.PcmIsHeard | apps/web/src/audio.ts:117-128 | read back from the bytes, every value is within one step of its sample, samples out of range are the ends of the scale, and the order of samples is kept |
| FrameCodec.EncodeFrame | apps/web/src/audio.ts:117-128 | the buffer filled in place is header and samples, with nothing overwritten, and what is read back from it is within one step of every sample |
| Segmenter.ClosedExtends | crates/core-server/src/audio.rs:315-339 | cutting can stop anywhere and go on from the rest: complete groups never depend on when the assembler ran |
| Segmenter.SealedTiles | crates/core-server/src/audio.rs:315-384 | the groups of a finished recording join to the recording |
| Segmenter.SealedIff | crates/core-server/src/audio.rs:315-351 | the one-shot cut is the only way to cut a recording into groups that end where the rule first holds, all but the last |
| Segmenter.GroupsAreOneShot | crates/core-server/src/audio.rs:318-385 | the groups before any place where an assembler can stand are the first groups of the one-shot cut, and all of them at the end |
| Segmenter.SealIsStableIff | crates/core-server/src/audio.rs:340-351 | sealed groups survive later audio exactly when there was no tail or nothing arrives |
| Windows.WindowSize | crates/core-server/src/audio.rs:21-38 | a complete window has at least six seconds and less than twenty-four plus one maximal chunk |
| Windows.ClosesIff | crates/core-server/src/audio.rs:213-227 | a window closes at 24 seconds, or from 6 seconds on when each of the last forty frames of 20 ms is below a root mean square of 104 |
| Windows.PauseCloses | crates/core-server/src/audio.rs:332-338 | after six seconds, 800 ms of samples below 104 end the window |
| Windows.SpeechKeepsOpen | crates/core-server/src/audio.rs:332-338 | before 24 seconds one frame of samples from 104 on in the last 800 ms keeps it open |
| Windows.WindowsKeepPcm | crates/core-server/src/audio.rs:319-382 | the audio of the windows is the audio of their chunks |
| Assembler.ReceiveCommutesIff | crates/event-store/src/lib.rs:1391-1437 | the order of two arriving frames matters exactly when they race for one free sequence with different content |
| Assembler.AcknowledgedIff | crates/event-store/src/lib.rs:1391-1437 | a frame is acknowledged exactly when afterwards its content is what is stored under its number |
| Assembler.AudioStore.PersistFrame | crates/core-server/src/audio.rs:128-211 | the first content of a sequence wins for ever, a repeat is a duplicate, other content is refused, and the assembled windows stay those of the recording |
| Assembler.CollectWindow | crates/core-server/src/audio.rs:324-339 | the inner loop stops at the first complete group, a hole or the end, and returns exactly the joined audio |
| Assembler.NextWindow | crates/core-server/src/audio.rs:315-351 | the window of one turn is that of the next group of the recording; without one, nothing is left to record |
| Assembler.AudioStore.AssembleSource | crates/core-server/src/audio.rs:296-386 | afterwards the windows are the one-shot cut of the contiguous recording, a function of the stored chunks and of tails sealed before; sealing covers all of it unless a chunk waits behind a hole |
| Assembler.WindowsHoldRecording | crates/core-server/src/audio.rs:296-386 | the recorded windows hold the recording up to the cursor, with consecutive bounds, and each holds exactly the frames its bounds name, from the capture time of the first |
| AssemblyRuns.RecordKeeps | crates/event-store/src/lib.rs:1585-1598 | recording a window, by whichever of several runs, keeps tables, jobs and all runs consistent with the history |
| AssemblyRuns.EnqueueKeeps | crates/core-server/src/audio.rs:352-369 | a job enqueued before a crash or by a run that has fallen behind is the next window or one recorded already |
| AssemblyRuns.ListKeeps | crates/event-store/src/lib.rs:1531-1551 | a list read at any time agrees with the history, and a sealing run lists all of it above the cursor |
| AssemblyRuns.HistoryGrows | crates/core-server/src/audio.rs:296-386 | new audio changes nothing that is recorded, queued or under way |
| AssemblyRuns.WindowsTileHistory | crates/core-server/src/audio.rs:296-386 | under any interleaving the windows hold the history up to the cursor: no gap, overlap or reorder, and each exactly the frames its bounds name, from the capture time of the first |
| AssemblyRuns.WindowsAreOneShot | crates/core-server/src/audio.rs:296-386 | the windows are always a beginning of the one-shot cut, and all of it when the cursor is at the end |
| AssemblyRuns.TablesChange | crates/core-server/src/audio.rs:296-386 | windows and cursor change only by recording and never backwards, a job is added only for the window recorded next, and a restart leaves the tables alone and no run alive |
| AssemblyRuns.JobsNeverOverlap | crates/core-server/src/audio.rs:352-382 | two different ASR jobs never share a frame, whatever crashes and concurrent runs do |
| AssemblyRuns.AlignedRunSealsAll | crates/core-server/src/audio.rs:230-257 | a sealing run that stands in line with its list finishes only when the whole recording is in windows |
| AssemblyRuns.AlignmentStays | crates/core-server/src/audio.rs:296-386 | no step of any run takes a sealing run out of line |
| AssemblyRuns.SealingRunStartsIff | crates/core-server/src/audio.rs:302-318 | a sealing run records something exactly when the cursor did not move between its two reads |
| AssemblyRuns.FlushCanMissTheTail | crates/core-server/src/projects.rs:604-624 | in every recording with a complete window and audio behind it, a run overtaking the flush leaves the tail unsealed |
| MissedTail.FlushMissesTheTail | crates/core-server/src/audio.rs:296-318 | for every recording of more than twenty-four seconds there is a run of page, network and Core, from the first sample on: everything is acknowledged, then the overtaken flush runs, and it ends with the session stopped and audio behind the last window |
| MissedTail.OvertakenIsAFlush | crates/core-server/src/projects.rs:604-624 | in that schedule the sealing run lists the whole recording, reads the cursor after another run has recorded, and finishes; nothing is killed |
| Outbox.RecoveredSequence | apps/web/src/audio.ts:130-133 | a page that starts goes on exactly behind the frames ever persisted |
| Outbox.RecoverIs | apps/web/src/audio.ts:130-133 | the recovered number is the usable stored one or one behind a pending frame, and above all that is pending |
| Outbox.NextFramesFit | apps/web/src/audio.ts:135-146 | what is sent is pending, not in flight, the oldest first, and fills the room that is left |
| Outbox.InFlightStaysBounded | apps/web/src/audio.ts:672-686 | at most eight frames are in flight |
| Outbox.DurableChanges | apps/web/src/audio.ts:593-602 | outbox, next number and stop intent change by saving, by deleting one acknowledged frame and by a stop, and not otherwise |
| Outbox.NetworkChanges | apps/web/src/audio.ts:672-686 | the network gains exactly the pending frames that a send selects |
| Outbox.SendingChanges | apps/web/src/audio.ts:604-686 | what is pending and in flight after each step: a new connection sends again, an acknowledged frame leaves |
| Outbox.PhaseChanges | apps/web/src/audio.ts:464-558 | a revoked page accepts and sends nothing, and a stop while it records lets it go on sending |
| Outbox.SaveKeeps | apps/web/src/audio.ts:593-602 | frame and next number written in one transaction keep the outbox invariant, also if the page dies before it learns of it |
| Outbox.AckKeeps | apps/web/src/audio.ts:635-650 | forgetting an acknowledged frame keeps every frame in the outbox or committed |
| Outbox.RefreshKeeps | apps/web/src/audio.ts:433-448 | a refresh loses only what was not yet persisted |
| Outbox.NothingIsLeft | apps/web/src/audio.ts:480-500 | when stop or finishPending can return, no frame is missing at Core |
| Outbox.StepKeeps | apps/web/src/audio.ts:433-686 | every step of the page and of the network keeps the outbox invariant |
| AudioProtocol.ActionKeeps | apps/web/src/audio.ts:433-686 | every step of page, network and Core keeps the invariant of the whole path |
| AudioProtocol.WindowsAreTheRecording | crates/core-server/src/audio.rs:128-386 | in every reachable state the windows hold exactly the audio persisted for the frames up to the cursor |
| AudioProtocol.EveryWindowHasItsJob | crates/core-server/src/audio.rs:352-382 | over all runs, restarts included, no window is stored without its recognition job |
| AudioProtocol.NoFrameIsLost | apps/web/src/audio.ts:224-234 | a persisted frame is in the outbox or committed with its payload at all later times, and the next number is free |
| AudioProtocol.NumbersAreNeverReused | apps/web/src/audio.ts:593-606 | two messages ever sent with one number are the same bytes, across refreshes |
| AudioProtocol.DeliveryIsAcknowledged | crates/core-server/src/audio.rs:60-124 | whatever reaches Core, in any order and however often, is stored or a duplicate; nothing conflicts or is refused |
| AudioProtocol.ReturnedMeansCommitted | apps/web/src/audio.ts:464-513 | when stop or finishPending returns normally Core holds every frame as persisted |
| AudioProtocol.SealedSessionIsComplete | crates/core-server/src/audio.rs:230-238 | after the stop, a sealing run that is in line when it finishes has put the whole recording into windows |
| AudioProtocol.SealingRunEndsIff | crates/core-server/src/audio.rs:296-386 | whatever else goes on, a sealing run that is not killed ends with the whole recording in windows exactly when the cursor did not move between its two reads or another run recorded the last window |
| AudioProtocol.WholeStays | apps/web/src/audio.ts:464-500 | whatever page, network and Core do, a page that was stopped while recording stays whole until it is refreshed |
| AudioProtocol.MicrophoneToWindows | apps/web/src/audio.ts:464-479 | once a page stopped while recording is persisted and Core has recorded to the end, the windows hold, behind what earlier pages persisted, the direct resampling of every sample the worklet delivered to it |
| AudioProtocol.WindowsSoundLikeMicrophone | apps/web/src/audio.ts:117-128 | read back as samples, what the windows hold sounds like the resampled recording, value by value |
| AudioProtocol.LineIsHeardInWindows | apps/web/src/audio.ts:76-126 | a straight line at the microphone is, within one step, the same line in the windows of Core |
| AudioProtocol.StoppedCourseIsInWindows | apps/web/src/audio.ts:464-500 | the same read off the actions: stopped while recording, not refreshed afterwards, persisted and assembled to the end |
| AudioRecovery.EveryStopCanComplete | apps/web/src/App.tsx:1565-1612 | from every reachable state in which stop was asked for, all persisted audio can still be committed, the session stopped and everything put into windows |
| Scheduling.StepKeeps | workers/gpu_agent/main.py:214-330 | every stretch under the lock keeps counters, exclusion and the absence of lost wakeups |
| Scheduling.RunsExclude | workers/gpu_agent/main.py:214-330 | an exclusive run overlaps nothing, at most one language model runs, and without overlap at most one run of any kind |
| Scheduling.SomebodyCanStart | workers/gpu_agent/main.py:214-330 | whenever nothing runs and somebody waits, somebody who may start is not left asleep |
| Scheduling.AsrBurstIsBounded | workers/gpu_agent/main.py:229-249 | while a translation waits and none is let in, at most eight ASR runs take the device |
| Scheduling.AsrWaitIsShort | workers/gpu_agent/main.py:256-321 | while an ASR waits and none is let in, no explanation and no exclusive run is let in, and at most one translation |
| Scheduling.TranslationGoesFirst | workers/gpu_agent/main.py:313-315 | while a translation waits, no explanation and no exclusive run is let in |
| Scheduling.PlacedIff | workers/gpu_agent/main.py:214-330 | over every run, a task that arrives or looks again starts, sleeps or waits 50 ms exactly as who is there and what has happened since the last translation say, and nobody else is moved |
| Scheduling.FinishWakes | workers/gpu_agent/main.py:243-249 | a task that ends is gone, every waiter looks again, and what runs goes on |
| Scheduling.GpuScheduler.EnterAsr | workers/gpu_agent/main.py:214-239 | the first stretch of an ASR call is the arrival step: it starts at once exactly beside a language model with overlap on, or when the device is free and no translation waits or the burst is not used up |
| Scheduling.GpuScheduler.LeaveAsr | workers/gpu_agent/main.py:243-249 | an overlapping ASR leaves the holder alone; any other frees the device and counts |
| Scheduling.GpuScheduler.EnterExclusive | workers/gpu_agent/main.py:256-277 | an exclusive call starts exactly when nothing runs and neither ASR nor a translation waits |
| Scheduling.GpuScheduler.EnterLlm | workers/gpu_agent/main.py:290-318 | a call that comes before the first ASR has ended waits for a moment; otherwise it starts exactly when the device is free and nobody of higher priority waits, or eight ASR runs have passed a translation |
| Scheduling.GpuScheduler.WakeLlm | workers/gpu_agent/main.py:307-324 | a woken call starts exactly then: an explanation when neither ASR nor a translation waits, a translation when no ASR waits or eight have passed |
| Scheduling.GpuScheduler.LeaveHolder | workers/gpu_agent/main.py:278-283 | the device is free and everybody looks again |
| WorkerGate.BusyIff | workers/model_worker/main.py:106-112 | the test on the table refuses exactly what could not run beside some inference that is alive |
| WorkerGate.SideBySideIff | workers/model_worker/main.py:82-91 | two calls may run side by side only as a transcription and a text model in the shared layout |
| WorkerGate.Gate.Call | workers/model_worker/main.py:94-131 | a call starts or is refused as busy; at most one live task a lane and nothing beside an exclusive one, whoever still waits |
| WorkerGate.Gate.Disconnect | workers/model_worker/main.py:94-131 | a caller that goes away leaves its inference alive, and nothing is admitted because of it |
| ByteRange.RangeIsBounded | crates/core-server/src/course_content.rs:771-819 | every accepted range is nonempty, inside the file and at most four MiB |
| ByteRange.WithoutHeader | crates/core-server/src/course_content.rs:771-780 | without a header the file is sent from its beginning, and marked as a part exactly when it is cut at four MiB |
| ByteRange.OnlyOneRange | crates/core-server/src/course_content.rs:781-819 | a header is accepted only as one range with numbers where it has any, and several ranges are refused as such |
| Decimals.DecimalRoundTrip | crates/core-server/src/course_content.rs:790-809 | decimal numbers are read back, and refused exactly when they overflow 64 bits |
| Decimals.ParseU64Iff | crates/core-server/src/course_content.rs:790-809 | one plus sign and leading zeros change nothing; anything but digits, or 64 bits exceeded, is refused |
| ByteRange.FirstAndLast | crates/core-server/src/course_content.rs:798-819 | the form first-last is accepted exactly when it starts inside the file, does not run backwards and ends in 64 bits (section 14.1.2 of RFC 9110) |
| ByteRange.FromFirst | crates/core-server/src/course_content.rs:798-819 | the form first- reaches the end of the file or four MiB |
| ByteRange.LastBytes | crates/core-server/src/course_content.rs:789-797 | the form -count takes the last bytes, of which the first four MiB are sent |
| ByteRange.RangesReassemble | crates/core-server/src/course_content.rs:771-819 | asking again from where each reply ended reassembles the file |
| Playback.HeaderDescribesFile | crates/core-server/src/course_content.rs:887-902 | both length fields of the header describe the file, for every size that is served |
| Playback.HeaderFields | crates/core-server/src/course_content.rs:887-902 | tags, format, channels, rate, byte rate, block align and bits stand where a player reads them |
| Playback.CourseIsReadable | crates/core-server/src/course_content.rs:823-852 | a reader of RIFF files finds in the served file the format of every chunk, rates that agree, and each chunk at its place |
| Playback.PlaybackChunks | crates/core-server/src/course_content.rs:621-653 | exactly the playable lists are accepted, with the offset of every chunk; the complaint names what is wrong |
| Playback.PlayableIff | crates/core-server/src/course_content.rs:621-653 | playable is whole 16 kHz mono samples in every chunk, as many as the length fields can name |
| Playback.CollectBody | crates/core-server/src/course_content.rs:830-848 | the parts taken from header and chunks are the slice of the concatenated file, or some chunk of it cannot be read |
| Playback.SessionAudio | crates/core-server/src/course_content.rs:823-852 | the reply is the slice of the simple file; the final length check never refuses anything |
| Playback.UnreadableIff | crates/core-server/src/course_content.rs:830-848 | an accepted range fails exactly when one of its bytes belongs to an object that cannot be read |
| Playback.CourseIsFetched | crates/core-server/src/course_content.rs:823-852 | a player that asks again from where each reply ended has the whole file, when every object can be read |
| Playback.CollectSegment | crates/core-server/src/course_content.rs:712-731 | the parts taken from the chunks are the slice of the recording |
| Playback.SessionAudioSegment | crates/core-server/src/course_content.rs:693-738 | the reply is a self-contained WAV file of the stretch asked for, or the range of it |
| Playback.SegmentIsReadable | crates/core-server/src/course_content.rs:733-738 | a segment is a file of its own for a reader |
| Playback.SegmentIsTimed | crates/core-server/src/course_content.rs:696-713 | a segment begins at its time and is as long as asked for, at least one second and at most two minutes, or ends with the recording |
| Playback.SegmentIsFetched | crates/core-server/src/course_content.rs:693-738 | a player that asks again from where each reply ended has the whole file of the segment, when every object can be read |
| Playback.UnrangedSegmentIsWhole | crates/core-server/src/course_content.rs:735-738 | without a Range header a segment is never cut short |
| Playback.SegmentsTile | crates/core-server/src/course_content.rs:700-713 | consecutive segments of equal length tile the recording |
| PlaybackIndex.IndexIsJoined | crates/core-server/src/course_content.rs:657-676 | rounding down never makes an entry overlap the next one or the end |
| PlaybackIndex.EntryIsTimed | crates/core-server/src/course_content.rs:657-676 | an entry gives the capture time of its chunk, and begin, end and duration in whole milliseconds of the recording |
| PlaybackIndex.TimeIsWithin | apps/web/src/sessionPlayback.ts:14-16 | the mapped time lies within the recording: the final clamp never binds |
| PlaybackIndex.TimeNeverGoesBack | apps/web/src/sessionPlayback.ts:4-17 | as capture time grows, playback time never goes back |
| PlaybackIndex.TimeInEntry | apps/web/src/sessionPlayback.ts:4-17 | within an entry playback time goes on with capture time, and in a gap behind it stands still |
| PlaybackIndex.TimeBeforeAll | apps/web/src/sessionPlayback.ts:4-17 | before the first capture the player stands at the beginning |
| PlaybackIndex.IndexIsSearchable | crates/event-store/src/lib.rs:1553-1556 | the index made of the chunks in capture order is what the search of the player needs |
| PlaybackIndex.PlaybackTimeForCapture | apps/web/src/sessionPlayback.ts:4-17 | the binary search agrees with a linear scan |
| PlayedRecording.PlayOrderIsOne | crates/event-store/src/lib.rs:1553-1556 | the order by capture time and sequence determines the list |
| PlayedRecording.PlayedInOrderIff | crates/event-store/src/lib.rs:1553-1556 | when everything is stored the play list is the recording, frame by frame, exactly when the clock never went back |
| PlayedRecording.PlayedIsWhatWindowsHold | crates/core-server/src/course_content.rs:621-653 | over all runs: an acknowledged course is played as recorded exactly then, and what is played is then what the windows hold |
| PlayedRecording.PlayedIsFetched | crates/core-server/src/course_content.rs:823-852 | over all runs: what Core has stored can be played, and a player that fetches the file in parts reads from it the frames in the order of play |
| PlayedRecording.SteadyClockIff | apps/web/src/audio.ts:593-602 | for every recording and every clock there is a run whose course is played in order exactly when the clock was steady |
| PlayedRecording.StepBackSwaps | apps/web/src/audio.ts:593-602 | two frames with the clock set back in between are played the wrong way round |
| TextBatches.CutProgressIff | workers/gpu_agent/teaching.py:235-247 | splitting makes progress exactly when the next character fits at all |
| TextBatches.CutIff | workers/gpu_agent/teaching.py:236-247 | a piece takes all that fits up to the last break in the second half of it, or all of it when there is none |
| TextBatches.PiecesJoin | workers/gpu_agent/teaching.py:231-252 | the pieces join to the text, every piece fits and none is empty |
| TextBatches.PieceIsCut | workers/gpu_agent/teaching.py:235-251 | each piece is so cut off what the earlier ones left, until that fits |
| TextBatches.SourcePieces | workers/gpu_agent/teaching.py:231-252 | the loop returns those pieces and terminates for a capacity of four bytes or more |
| TextBatches.BatchingIsUnique | workers/gpu_agent/course_summary.py:19-33 | there is only one batching in order that fits and closes no batch early |
| TextBatches.FillStep | workers/gpu_agent/teaching.py:278-283 | the running size is the size of the joined batch, with its separators |
| TextBatches.NoteBatches | workers/gpu_agent/course_summary.py:19-33 | the batches keep every piece in order, fit when joined, and are as full as they can be |
| TextBatches.TeachingChunks | workers/gpu_agent/teaching.py:271-286 | the same for chunks, with every piece under its own segment |
| CourseCompiler.KeepUsable | workers/gpu_agent/course_summary.py:65-88 | of the usable groups that begin at a segment exactly the last one offered is kept, at that place |
| CourseCompiler.UsableIff | workers/gpu_agent/course_summary.py:65-88 | a group is usable exactly when it is complete, is a slice of the course and cites nothing but itself and known pages |
| CourseCompiler.TilesCover | workers/gpu_agent/course_summary.py:90-135 | whatever groups are offered, the tiles name every segment once, in order |
| CourseCompiler.TileCourse | workers/gpu_agent/course_summary.py:90-135 | the result of the loop passes the coverage check, which can never fail |
| CourseCompiler.TileIs | workers/gpu_agent/course_summary.py:90-135 | every tile takes what stands at its place: the kept group, or segments up to the next one, twenty at most |
| CourseCompiler.FreshEndFits | workers/gpu_agent/course_summary.py:103-105 | a fresh tile has at most twenty segments and ends at a reusable group, at the limit or at the end |
| CourseOverview.PassShortens | workers/gpu_agent/course_summary.py:170-176 | when no note exceeds 3500 bytes a pass with legal replies shortens the joined notes by at least one byte for every batch |
| CourseOverview.IllegalIff | workers/model_worker/teaching.py:101-109 | a reply is refused when it is empty, too long, no shorter than its source, too short or repetitive |
| CourseOverview.OverviewIsWritten | workers/gpu_agent/course_summary.py:160-179 | a condition on the notes alone under which the overview is written, whatever the legal replies are |
| CourseOverview.ShortNotesAreWritten | workers/gpu_agent/course_summary.py:160-179 | in particular when no note exceeds 3500 bytes and all together 3500 and two for each chapter |
| OverviewLimits.TwoBatchesIff | workers/gpu_agent/course_summary.py:160-179 | for notes that make two batches the condition is exact: otherwise some legal replies lead to no overview |
| Repetition.DistinctPasses | workers/model_worker/teaching.py:84-98 | a text of different letters is no repetition; the replies of the failing runs are such texts |
| Repetition.CollapsesIff | workers/model_worker/teaching.py:84-98 | a text is a repetition exactly when a sentence of twelve characters stands at three places, or sixteen characters of a text of eighty at five |
| Repetition.StopSeparates | workers/model_worker/teaching.py:88-91 | at a stop the sentences on both sides follow one another |
| Repetition.NoStopIsOneSentence | workers/model_worker/teaching.py:88-91 | a text without a stop is one sentence, without its marks |
| Repetition.SameCollapses | workers/model_worker/teaching.py:84-98 | a text of one letter is refused from eighty characters on |
| OverviewLimits.OverviewFails | workers/gpu_agent/course_summary.py:167-178 | notes of which two neighbouring batches stay too long together lead to no overview with any replies of the greatest legal length |
| OverviewLimits.FourBatchesCanFail | workers/gpu_agent/course_summary.py:167-178 | for all notes of four batches or more, up to 352 chapters, there are legal replies that lead to no overview |
| OverviewLimits.ManyLongNotesCanFail | workers/gpu_agent/course_summary.py:167-178 | so do legal replies to up to 351 chapters of 1750 bytes and one for each chapter, or more |
| OverviewLimits.TwoFullChaptersCanFail | workers/model_worker/teaching.py:176-180 | two chapters of 700 three-byte characters are such an input |
| CourseOverview.WriteOverview | workers/gpu_agent/course_summary.py:160-179 | every batch of every pass that is needed is asked for; every request is nonempty, at most 3500 bytes and within the receiver's limits |
| TeachingRequests.ProseRequest | workers/gpu_agent/teaching.py:317-339 | whatever pages there are, the prose request meets the receiver's limits |
| TeachingRequests.ContextIs | workers/gpu_agent/teaching.py:321-328 | the chunk before comes along if it fits, then the one behind if it fits as well |
| TeachingRequests.GreedyTakes | workers/gpu_agent/teaching.py:324-336 | one more candidate is taken exactly when there is room and it fits beside those taken |
| TeachingRequests.ProseRequests | workers/gpu_agent/teaching.py:312-339 | every prose request of a card is accepted, whatever the segments and pages are |
| TeachingRequests.ContainsIff | workers/gpu_agent/teaching.py:204-210 | a term is found exactly when it is not blank and stands in the text, not inside a Latin word |
| TeachingRequests.SurfaceIff | workers/model_worker/teaching.py:118-127 | the receiver finds it likewise, whatever the case |
| TeachingRequests.SqueezedWords | workers/gpu_agent/teaching.py:365 | however many blanks stand before a word, the key has one |
| TeachingRequests.CollectEntries | workers/gpu_agent/teaching.py:356-398 | the inventory is what the offers lead to, those of the model before those of the glossary; every entry is attested by its chunk, under its own key, and can be asked for within the limits, or the glossary answers it |
| TeachingRequests.FirstOfferEnters | workers/gpu_agent/teaching.py:365-391 | the first offer of every key enters the inventory |
| TeachingRequests.EntryIsFirst | workers/gpu_agent/teaching.py:365-391 | nothing else does |
| TeachingRequests.NamedIsOffered | workers/gpu_agent/teaching.py:356-369 | every kept term that the model names and the chunk contains is offered, with the context that fitted |
| TeachingRequests.GlossaryIsOffered | workers/gpu_agent/teaching.py:375-391 | so is every term that the glossary answers for a chunk, with both neighbours |
| TeachingRequests.DefinitionsAreAccepted | workers/gpu_agent/teaching.py:430-469 | every entry left to be defined is attested and meets the limits of text and context, and there are at most eight |
| TeachingRequests.UnresolvedIff | workers/gpu_agent/teaching.py:430-442 | of the first eight entries exactly those are asked for that the glossary does not answer |
| TeachingRequests.DefinitionRequestIff | workers/model_worker/teaching.py:29-49 | a definition request is accepted exactly when it asks for two terms or for one of at most 160 characters |
| TeachingRequests.DefinitionsAcceptedIff | workers/model_worker/teaching.py:33-49 | a request for several terms is accepted exactly for one to four that are found, none of them twice, within the limits; one for a single term likewise, up to 160 characters |
| TeachingRequests.LongTermIsRefused | workers/model_worker/teaching.py:29 | a term of 161 letters that is found in the chunk is asked for and refused |
| TeachingRequests.DefinitionBatches | workers/gpu_agent/teaching.py:454-462 | every unresolved entry is in exactly one batch, at most two together, with one evidence and different keys; an entry is alone only if no later one shares its evidence |
| TeachingRequests.GroupRequestIff | workers/gpu_agent/teaching.py:519-523 | several drafts are sent up to 6200 bytes, and accepted exactly when they have at most 4000 characters |
| TeachingRequests.LongDraftsAreRefused | workers/model_worker/teaching.py:24-38 | two ASCII drafts pass the sender's guard and are refused by the receiver |
| EventLog.AppendKeeps | crates/event-store/src/lib.rs:1336-1344 | an event under the next sequence of its source keeps identities unique and sequences increasing |
| EventLog.AppendIsGapFree | crates/event-store/src/lib.rs:1336-1344 | every source numbers its events 1, 2, 3 and so on: the next sequence leaves no gap |
| EventLog.LastSequenceIsOwn | crates/event-store/src/lib.rs:1336-1344 | the last sequence is the highest of the same source of the same session, and of no other |
| EventLog.Log.EmitIdempotent | crates/core-server/src/app.rs:99-145 | one event a key; a retry returns the original and mismatched reuse is rejected, the log unchanged |
| EventLog.Log.PersistAudio | crates/event-store/src/lib.rs:1391-1529 | a chunk and its event commit together; a repeat inserts nothing, a conflict changes nothing, and whatever is accepted has its event |
| EventLog.CommitKeyIsUnique | crates/core-server/src/audio.rs:169-171 | as long as no session name holds a colon, different chunks have different keys |
| EventLog.AudioLineageKeeps | crates/core-server/src/audio.rs:172-191 | the event carries the facts of its chunk, and its capture time in nanoseconds, saturating at 64 bits |
| EventLog.PairedOneToOne | crates/event-store/src/lib.rs:1386-1390 | stored chunks and ingest events correspond one to one, as both emitters keep it |
| EventStream.ListedIsRest | crates/event-store/src/lib.rs:1313-1333 | behind a received beginning the query lists the rest of the log |
| EventStream.ListedIff | crates/event-store/src/lib.rs:1313-1333 | a request lists exactly the events with a greater key, in whatever order they were emitted |
| EventStream.LiveKeeps | crates/core-server/src/api.rs:280-291 | the watermark suppresses exactly what the replay delivered |
| EventStream.DeliveredOnceInOrder | crates/core-server/src/api.rs:246-301 | over any reconnects, lags and overlaps every event arrives exactly once and in order |
| EventStream.ReconnectDelivers | crates/core-server/src/api.rs:256-287 | in every state a reconnect delivers each event of the log once more if its key is greater than that of the event received last, and not at all otherwise |
| EventStream.ReconnectIsCompleteIff | crates/core-server/src/api.rs:256-287 | after a reconnect every event has come once exactly when the browser had the events up to the last one it received |
| EventStream.DeliverableIff | crates/core-server/src/api.rs:246-329 | in every reachable state, in whatever order events are emitted, an event can still come in some later run exactly when it is to be replayed, waits behind the watermark or is greater than the last one received |
| EventStream.LateEventIsLost | crates/core-server/src/api.rs:322-329 | an event emitted behind a greater one that was seen live is never delivered |
| EventStream.SeenEventComesAgain | crates/core-server/src/api.rs:256-287 | a run in which an event seen live is delivered a second time |
| DocumentTranslation.IndexEvents | apps/web/src/timeline.ts:96-119 | the maps built in one pass answer, for every paragraph, its translations in order and the newest correction of text and translation |
| DocumentTranslation.LatestIsNewest | apps/web/src/timeline.ts:105-112 | the correction in force is the newest, in whatever order the events come |
| DocumentTranslation.LatestIsFirst | apps/web/src/timeline.ts:105-112 | of corrections with the same sequence the first stays in force |
| DocumentTranslation.ForeignTranslationIff | apps/web/src/timeline.ts:156-180 | a translation made from another text is shown in exactly one case |
| DocumentTranslation.FreshTranslationIsShown | apps/web/src/timeline.ts:156-180 | a translation of the shown text is shown as soon as it comes, or the text when it is in the same language, unless one was corrected by hand |
| DocumentTranslation.CorrectedTranslationIsShown | apps/web/src/timeline.ts:163-180 | a translation corrected by hand for the shown text is shown, and stays under any later translations of the same text, unless the last of these only repeats the text |
| DocumentTranslation.CorrectedTextIsShown | apps/web/src/timeline.ts:156-159 | the newest correction that says something is the text; otherwise it is what was recognized |
| DocumentTranslation.CorrectedTextHidesTranslation | apps/web/src/timeline.ts:165-180 | a text corrected into one that was never translated hides every translation |
| DocumentTranslation.OutdatedCorrectionHides | apps/web/src/timeline.ts:163-168 | a translation corrected by hand for another text hides every translation, also one of the text that is shown now |
| DocumentTranslation.MachineIsLast | apps/web/src/timeline.ts:160 | the machine translation that counts is the last one of the shown text, or else the last of all |
| FolderTree.IsFolderDescendant | apps/web/src/uiState.ts:25-38 | the walk ends on every map, cyclic or not, and answers exactly whether one folder lies above the other |
| FolderTree.AncestorIff | apps/web/src/uiState.ts:25-38 | one folder lies above another exactly when rows lead from the other up to it |
| FolderTree.DropKeepsForest | apps/web/src/uiState.ts:40-55 | an accepted drop keeps the folders acyclic |
| FolderTree.DropIsPlaced | crates/core-server/src/workspace.rs:170-205 | dropped inside a folder it stands under it, beside one it has the same parent, at the root none; no other folder moves |
| FolderTree.DropsKeepForest | crates/core-server/src/workspace.rs:170-205 | so does any sequence of drops |
| FolderTree.RefusedDropClosesCircle | apps/web/src/uiState.ts:40-55 | what the guard refuses would have closed a circle, apart from a folder dropped beside itself |

## Left out

- Preview jobs: they carry no stable window and move no cursor.
- Leases, their renewal and takeover, permissions and the audio graph: a lost lease appears as the page being revoked.
- Failures of the local database inside `queueFrame`: the claims start at the durable frame.
- The emission path that reads a sequence and inserts outside the lock; `EventStream` shows what its reordering can cost.
- Floating-point rounding in the resampler: samples are exact reals.
- Volatile samples that were not yet persisted when a page is refreshed: they may be lost.
- ASR on the CPU, where the scheduler is one plain lock, and cancellation of sleeping waiters.
- The validation of teaching sources: records are taken as `source_records` returns them, with distinct identities.
- Prose quality gates other than sizes and repetition: the phrases of narration and the language of a reply. Generated prose is otherwise arbitrary nonempty text.
- CourseOverview.OverviewIsWritten: is one-way for notes that make three batches; how long replies can put off the end then depends on the order in which they are merged.
- OverviewLimits.FourBatchesCanFail: leaves courses of more than 352 chapters open, and notes with a batch so short that it runs out of legal replies before the passes do.
- The glossary and the test for names of persons: fixed functions of their arguments in `TeachingRequests`.
- Label clean-up of shown translations, speaker labels and audio spans of a paragraph.
- The depth limit of folders and the order of siblings, which the server adds to a move.
- HTTP status codes and headers of playback replies; a read error of the object store and an object of the wrong size are one error.
- The retry of single terms after a failed definition batch, and the smaller number of terms sent to a cloud provider.
- AudioRecovery.EveryStopCanComplete: says that a way on exists, not that retries take it, because the network may never deliver.
