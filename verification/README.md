# Verified models of PipeTune's engines

PipeTune processes a desktop's audio through DSP presets. This project models the parts of it that decide hard
properties by themselves, free of GLib, GTK and the audio server, and proves those properties for every input and
every run. `dafny verify dfyconfig.toml` checks all of it.

* **Audio bridge.** The lock-free planar ring as a bounded queue behind in-place array code (`AudioRing`), and again
  step by step with a writing and a reading thread interleaving (`RingProtocol`). The five-phase transition smoother
  as a per-frame function (`TransitionControl`), its properties over runs (`TransitionRuns`), the shape of a whole
  transition (`TransitionShape`), and the class that updates the planar buffer in place, tied to that function channel
  by channel (`Silencer`). The startup delay, the ring and the smoother together (`BridgeStream`), and the class that
  wires them up as the output callback does (`OutputPath`). That what goes in comes out, through the ring
  (`RingRelay`), through two threads (`RingOffers`) and sample by sample in the output buffers (`OutputShape`).
* **Settings transaction.** The dialog's pure decisions and the class whose fields they change (`Settings`); rollback,
  conflict and convergence over runs with a daemon (`SettingsRuns`); every field read off the history of events, and
  the ends a dialog can come to (`SettingsHistory`).
* **Output mapping.** Validation of saved outputs (`OutputRouting`), the four edits (`OutputMapping`), their laws over
  any sequence of edits (`OutputMappingLaws`) and the display order (`OutputOrder`).
* **Assets.** Path resolution through symbolic links and confinement (`AssetPath`) and what it asks to be watched
  (`AssetTrail`); the disk budget with pins and least recently used eviction (`CacheReclaim`); the checksummed entry
  format (`CacheEntry`); the process-wide memory reservation under all interleavings (`MemoryReservation`) and what each
  of its operations leaves (`MemoryOutcomes`).
* **Two protocols.** The strict `set-output` request (`SetOutputCodec`, `SetOutputLaws`, over `JsonValue` and the way
  texts are written and read, `TextLayer`) and the autostart override with its backup (`Autostart`).

Code that works in place is a method or a class here, proved against a specification function; the laws are lemmas
about those functions. Samples are real numbers, frame counters natural numbers. The outside world enters as
parameters: which file operations fail, what the daemon answers, which thread moves next, the JSON library, the digest.

Some promises do not hold as one would first write them; each is stated with its exact condition:

* A `set-output` request is written even when a card field holds a NUL, which the parser then refuses, or when a text is
  not UTF-8, which then arrives as a different text: a preset path as another path, two cards as the same card
  (`RoundTrip`, `NulCardIsMadeButRefused`, `StrayByteIsAltered`, `StrayBytesCollide`).
* Masking and restoring the autostart entry does not bring back a mask that was already there, and turns an orphaned
  backup into the override (`MaskThenRestore`, `OrphanComesBack`).
* A change made outside the settings dialog while an operation of the dialog is in flight is lost unless it is what the
  dialog wishes: the report is dropped, the reply brings the change in without a conflict, and the following operations
  set the field group back to the dialog's wish (`ConflictIsNoticed`, `ReplyIsAdopted`,
  `OutsideChangeSurvivesIffWished`, `OutsideChangeIsOverwritten`).

## Model

| member | source | states |
|---|---|---|
| `TransitionControl.FadedIsGain` | pipetune/src/audio_bridge.cpp:256-265 | A fade built up one step at a time equals the sample times the gain steps/fade that the buffer loop multiplies by. |
| `TransitionControl.Settle` | pipetune/src/audio_bridge.cpp:241-332 | The inner re-dispatch always ends in a phase that emits the frame, and never leaves the reachable counter states. |
| `TransitionControl.TickIgnoresUnavailable` | pipetune/src/audio_bridge.cpp:243-315 | A frame past the available ones gives the same state and output whatever the buffer holds there. |
| `TransitionControl.UnderrunIsBegin` | pipetune/src/audio_bridge.cpp:248-315 | An underrun while audio passes is indistinguishable from an explicit start in front of that frame. |
| `TransitionControl.PartitionIndependence` | pipetune/src/audio_bridge.cpp:225-343 | Cutting a block anywhere changes neither the output samples, nor the final line, nor the count carried across the cut. |
| `TransitionControl.TwoCallsAreOne` | pipetune/src/audio_bridge.cpp:225-343 | Two calls on the parts, each counting from zero and with its own share of the availability, give the samples and the final line of one call, and their counts add up to its count. |
| `TransitionControl.AvailabilityClips` | pipetune/src/audio_bridge.cpp:243 | The part of a block before and after a cut may be given its own clipped availability: only the order of frame and availability matters. |
| `TransitionControl.TailIsNeverHeard` | pipetune/src/audio_bridge.cpp:241-343 | Two blocks that agree on their available frames leave the same state and output, whatever the rest of the buffer holds. |
| `TransitionRuns.Run` | pipetune/src/audio_bridge.cpp:187-343 | Every state reachable by starts, resets and frames keeps the counter invariants: nothing left in steady and awaiting, a pending silence only during a fade-out, no fade longer than its length. |
| `TransitionRuns.OpeningIsRun` | pipetune/src/audio_bridge.cpp:236-239 | A generation change in front of a block is a start event of the run. |
| `TransitionRuns.BlockIsRun` | pipetune/src/audio_bridge.cpp:241-341 | Processing a block is the run of its frames one by one, so what holds over runs of frames holds over any sequence of blocks. |
| `TransitionRuns.BlockEmits` | pipetune/src/audio_bridge.cpp:241-341 | The samples a run emits over a block are exactly the processed block. |
| `TransitionRuns.TickTracks` | pipetune/src/audio_bridge.cpp:187-343 | One frame moves the output by at most the input's own step plus one fade step, in every phase and for every interruption. |
| `TransitionRuns.ClickBound` | pipetune/src/audio_bridge.cpp:187-343 | Over every run with fade F >= 1, samples within M and input steps within D, neighbouring emitted samples differ by at most D + M/F and none exceeds M. |
| `TransitionRuns.GuaranteedSilence` | pipetune/src/audio_bridge.cpp:187-301 | After a transition begins, a frame is the first to carry new PCM if and only if it is available, the fade-out is over and the demanded number of available frames has been muted; before that every frame is the fade-out and then exact zero. |
| `TransitionRuns.SilenceIsPaid` | pipetune/src/audio_bridge.cpp:278-291 | Before any new PCM at least the demanded number of available frames was emitted as zero; unavailable frames do not count. |
| `TransitionRuns.HeldWasEmitted` | pipetune/src/audio_bridge.cpp:187-189 | What a fade-out decays is zero or a sample emitted since the last reset. |
| `TransitionRuns.NoStaleAudio` | pipetune/src/audio_bridge.cpp:241-340 | Every emitted sample is zero, a decayed copy of an already emitted sample, or a gain in [0, 1] times the frame's own available sample. |
| `TransitionShape.AudioComesBack` | pipetune/src/audio_bridge.cpp:280-332 | From a smoother that waits for audio, available frames under a fade of F rise by 1/F each; from frame F on (from the first if F = 0) every sample is its input, the phase is steady and no frame is counted. |
| `TransitionShape.TransitionPlaysOut` | pipetune/src/audio_bridge.cpp:187-343 | A whole transition while audio is there: the last sample dies away over F frames, then exactly the silence asked for, then the input rises over F frames and passes unchanged; exactly those frames are counted. |
| `TransitionShape.ResetPlaysOut` | pipetune/src/audio_bridge.cpp:210-343 | After a reset nothing dies away: exactly the silence asked for is zero, then the input rises and passes. |
| `TransitionShape.EveryStateRecovers` | pipetune/src/audio_bridge.cpp:241-332 | From every valid state the frames withheld or shaped are exactly the first so many available ones, and after them each sample is its input in the steady phase. |
| `OutputShape.ApplyNewGeneration` | pipetune/src/audio_bridge.cpp:225-343 | One call on a buffer full of audio under a new generation: each slot holds the sample of a whole transition from the channel's last sample to the buffer's own, and the count is its length. |
| `OutputShape.ApplySteady` | pipetune/src/audio_bridge.cpp:241-343 | One call in the steady phase under the same generation leaves a buffer full of audio exactly as it is and counts nothing. |
| `OutputShape.UnheardFollows` | pipetune/src/audio_bridge.cpp:336-340 | A channel the buffer does not carry goes through the same phases as the others and keeps the last sample it played. |
| `Silencer.AudioTransitionSilencer.constructor` | pipetune/src/audio_bridge.cpp:181-185 | A new smoother passes audio through on all sixteen channels. |
| `Silencer.AudioTransitionSilencer.BeginTransition` | pipetune/src/audio_bridge.cpp:187-203 | The field updates are the beginning of a transition on every channel, decaying each channel's own last sample. |
| `Silencer.AudioTransitionSilencer.Start` | pipetune/src/audio_bridge.cpp:205-208 | Starts a transition, leaving the observed generation alone. |
| `Silencer.AudioTransitionSilencer.Reset` | pipetune/src/audio_bridge.cpp:210-223 | A reset forgets every sample and waits for audio behind the demanded silence. |
| `Silencer.AudioTransitionSilencer.SettlePhase` | pipetune/src/audio_bridge.cpp:244-332 | The loop that reconsiders the phase terminates and settles every channel's line alike. |
| `Silencer.AudioTransitionSilencer.EmitFrame` | pipetune/src/audio_bridge.cpp:242-340 | One frame of the in-place update writes each channel's next sample, remembers it and touches no other frame. |
| `Silencer.AudioTransitionSilencer.Apply` | pipetune/src/audio_bridge.cpp:225-343 | The planar buffer, every channel's state and the returned count after a call are those of the one-channel model, channel by channel; a malformed call changes nothing. What such a block sounds like is spelled out by `ApplyNewGeneration` and `ApplySteady`. |
| `Silencer.UnheardPartition` | pipetune/src/audio_bridge.cpp:241-332 | On a channel the buffer does not carry, too, two calls leave what one leaves. |
| `Silencer.ApplyPartition` | pipetune/src/audio_bridge.cpp:225-343 | One accepted call and two on its parts under the same generation: the same samples on every channel, the same line on all sixteen, and returned counts that add up. |
| `AudioRing.CopySpan` | pipetune/src/audio_bridge.cpp:21-22 | A span is copied in order and nothing beside it is touched. |
| `AudioRing.CopyIntoRing` | pipetune/src/audio_bridge.cpp:14-23 | After the two-part copy the ring cells from the write position on hold the source in order across the wrap, and every other cell is unchanged. |
| `AudioRing.CopyFromRing` | pipetune/src/audio_bridge.cpp:25-34 | The destination receives the ring cells from the read position on, in order across the wrap. |
| `AudioRing.PlanarAudioRing.Create` | pipetune/src/audio_bridge.cpp:36-48 | A ring exists exactly for one to sixteen channels and a positive capacity, and starts empty. |
| `AudioRing.PlanarAudioRing.Write` | pipetune/src/audio_bridge.cpp:50-78 | Appends to the bounded queue exactly the frames that fit, with their samples and generation; the rest counts as overrun; a block of the wrong size changes nothing. |
| `AudioRing.PlanarAudioRing.Read` | pipetune/src/audio_bridge.cpp:80-86 | Takes the oldest frames off the queue, silence for other generations and for the missing tail, which counts as underrun. |
| `AudioRing.PlanarAudioRing.ReadWithSilencePrefix` | pipetune/src/audio_bridge.cpp:88-131 | Silent prefix, then the oldest queued frames with stale generations silenced, then a silent tail counted as underrun; malformed requests change nothing. What is heard of them is what was written (`RelayHolds`). |
| `AudioRing.PlanarAudioRing.DiscardQueuedFrames` | pipetune/src/audio_bridge.cpp:133-139 | Empties the queue and reports how many frames it held. |
| `RingRelay.BlockComesBack` | pipetune/src/audio_bridge.cpp:50-131 | A block written whole into an empty queue and read back whole is the same block, sample for sample, under its own generation, and all silence under any other. |
| `RingRelay.WriteThenRead` | pipetune/src/audio_bridge.cpp:50-131 | The same on the ring itself, with its two methods, and neither an overrun nor an underrun. |
| `RingRelay.RelayHolds` | pipetune/src/audio_bridge.cpp:50-131 | Over any sequence of writes and reads, of whatever sizes and generations: on every channel the i-th sample handed out is the i-th accepted, silenced exactly if it was written under another generation than it is read under, and the rest is still queued. |
| `RingRelay.PutBlock` | pipetune/src/audio_bridge.cpp:50-78 | A write of the ring is such a write. |
| `RingRelay.GetBlock` | pipetune/src/audio_bridge.cpp:88-131 | A read of the ring is such a read. |
| `RingProtocol.ProducerStepHolds` | pipetune/src/audio_bridge.cpp:57-75 | Each load, cell copy and publish of the writer keeps the joint invariant, whatever the reader is in the middle of. |
| `RingProtocol.ConsumerStepHolds` | pipetune/src/audio_bridge.cpp:98-137 | Each load, cell copy and publish of the reader keeps the joint invariant, whatever the writer is in the middle of. |
| `RingProtocol.EveryInterleaving` | pipetune/src/audio_bridge.cpp:50-139 | After any interleaving: read <= write <= read + capacity, and every frame handed out is a published one with its samples and stamp intact, each at most once and in order. |
| `RingProtocol.NothingSkipped` | pipetune/src/audio_bridge.cpp:98-131 | Without discards the frames handed out are exactly the first ones published, none left out. |
| `RingProtocol.FillingNeverOverlaps` | pipetune/src/audio_bridge.cpp:57-75 | The slots being filled never coincide with a slot the reader may still read. |
| `RingOffers.LogIsAccepted` | pipetune/src/audio_bridge.cpp:57-75 | Over every interleaving the published frames are those of each finished offer, in order: its first ones, as many as slots were free when the read counter was loaded. |
| `RingOffers.ReadsAreAnswered` | pipetune/src/audio_bridge.cpp:98-139 | Over every interleaving the frames handed out number what each finished request asked for or found queued, whichever was less, and a finished discard passes exactly what it found queued. |
| `BridgeStream.AudioBridgeLatencyController.ConsumePrefixFrames` | pipetune/src/audio_bridge.cpp:170-175 | Hands out as much of the remaining delay as the block holds. |
| `BridgeStream.StreamHolds` | pipetune/src/audio_bridge.cpp:50-175 | For any schedule of writes, output blocks and discards: exactly L frames of delay come first, accepted frames play at most once and in order, and offered = accepted + overrun, accepted = played + discarded + queued, requested = played + underrun. |
| `BridgeStream.PlaysInOrder` | pipetune/src/audio_bridge.cpp:88-175 | Without discards the k-th played frame is the k-th accepted one. |
| `BridgeStream.BlockPartition` | pipetune/src/audio_bridge.cpp:88-175 | Two output blocks in a row do exactly what one block of their total size does. |
| `BridgeStream.NothingStaleLeavesTheBridge` | pipetune/src/audio_bridge.cpp:106-340 | Reading and smoothing under one generation: each output sample is zero, a decayed copy of a sample already emitted, or a gain in [0, 1] times a queued sample stamped with that generation. |
| `BridgeStream.AudioBridgeLatencyController.Configure` | pipetune/src/audio_bridge.cpp:160-164 | The delay is set and owed in full. |
| `BridgeStream.AudioBridgeLatencyController.Reset` | pipetune/src/audio_bridge.cpp:166-168 | The whole delay is owed again. |
| `OutputPath.OutputPath.constructor` | pipetune/src/pipewire_pipeline.cpp:311 | The path starts with no delay, an empty stream and channels to which nothing has happened. |
| `OutputPath.OutputPath.Offer` | pipetune/src/pipewire_pipeline.cpp:1297-1298 | A block written to the ring is the offer step of the stream, generations and overrun included. |
| `OutputPath.OutputPath.Configure` | pipetune/src/pipewire_pipeline.cpp:1098 | A measured delay begins a new stream that owes it in full in front of the frames already queued. |
| `OutputPath.OutputPath.Restart` | pipetune/src/pipewire_pipeline.cpp:464-480 | A pending transition begins a new stream with the full delay and an empty queue, starts or resets every channel's line, and enters every channel's history. |
| `OutputPath.OutputPath.Fill` | pipetune/src/pipewire_pipeline.cpp:1497-1503 | Delay and ring together produce the next block of the stream; while the bridge is not ready the block is all silence and no delay is used up. |
| `OutputPath.OutputPath.Process` | pipetune/src/pipewire_pipeline.cpp:1497-1510 | Every channel of an output block is the smoothed next block of the stream; and in every run of the path each sample that leaves is zero, a decayed copy of one that left since the last reset, or a gain in [0, 1] times a queued sample stamped with the active generation. |
| `OutputPath.ProcessPartition` | pipetune/src/pipewire_pipeline.cpp:1490-1524 | Two output blocks under one generation are one block of their total size: samples, stream, lines and counts. |
| `OutputShape.SteadyPathIsTransparent` | pipetune/src/pipewire_pipeline.cpp:1497-1510 | Behind a steady smoother an output block is the rest of the delay as silence and then, sample for sample, the queued frames of the active generation, which leave the queue. |
| `OutputShape.WaitingPathIsSilent` | pipetune/src/pipewire_pipeline.cpp:1497-1503 | While the bridge is not ready a steady path plays silence, and neither queue nor delay moves. |
| `Settings.SettingsTransaction.RestoreSettingsDefaults` | pipetune-gtk/src/settings-transaction.cpp:98-106 | Defaults become the wish and end a cancellation, a conflict and a failure. |
| `Settings.SettingsTransaction.EditSettingsTransaction` | pipetune-gtk/src/settings-transaction.cpp:108-119 | An edit replaces the wish, unless the dialog is being cancelled. |
| `Settings.SettingsTransaction.MarkSettingsDisconnected` | pipetune-gtk/src/settings-transaction.cpp:206-212 | A lost connection drops what was in flight and keeps the rest. |
| `SettingsRuns.StepHolds` | pipetune-gtk/src/settings-transaction.cpp:73-319 | Each single event keeps the transaction invariant, the baseline settings (a stored Apply aside) and the order of the baseline cards. |
| `Settings.SettingsTransaction.constructor` | pipetune-gtk/src/settings-transaction.cpp:73-96 | Opening takes the live state as baseline, wish and confirmation, except the startup-only SFZ budget, which is the saved one. |
| `Settings.SettingsTransaction.BeginSettingsOperation` | pipetune-gtk/src/settings-transaction.cpp:163-173 | Starts exactly the next due operation, with the current wishes as its target, and nothing else. |
| `Settings.SettingsTransaction.CompleteSettingsOperation` | pipetune-gtk/src/settings-transaction.cpp:175-204 | A reply confirms only if it succeeded and matches the operation's own fields of the target; otherwise live changes stop. |
| `Settings.SettingsTransaction.ObserveOutputProfiles` | pipetune-gtk/src/settings-transaction.cpp:214-232 | A card seen for the first time enters all three lists; a known card's confirmed profile is updated and reported as a change. |
| `Settings.SettingsTransaction.ReconnectSettingsTransaction` | pipetune-gtk/src/settings-transaction.cpp:234-248 | A reconnection adopts the live state, drops what was in flight and ends a conflict; over a whole run that is `ConfirmedIsLastWord`. |
| `Settings.SettingsTransaction.ObserveSettingsRuntime` | pipetune-gtk/src/settings-transaction.cpp:250-275 | A report is a reconnection, ignored, or either a silent revision update or a conflict. |
| `Settings.SettingsTransaction.RequestSettingsCancel` | pipetune-gtk/src/settings-transaction.cpp:277-284 | Cancelling makes the baseline the wish and ends a conflict. |
| `Settings.SettingsTransaction.CompleteSettingsPersistence` | pipetune-gtk/src/settings-transaction.cpp:305-319 | A stored Apply makes the wish the saved state and the confirmation the baseline. |
| `SettingsRuns.RunHolds` | pipetune-gtk/src/settings-transaction.cpp:73-319 | The transaction invariant survives every run: the profile lists hold the same cards in the same order, each once; an operation is in flight only while connected, without conflict or failure; a cancelled transaction wants its baseline. |
| `SettingsRuns.BaselineIsCheckpoint` | pipetune-gtk/src/settings-transaction.cpp:73-319 | Over every run the baseline is the live state at opening or at the last stored Apply, extended only by cards first seen later. |
| `SettingsRuns.CloseMeansRestored` | pipetune-gtk/src/settings-transaction.cpp:321-330 | Whenever a cancelled dialog may close, the daemon has confirmed that checkpoint again, every compared field and every card's profile. |
| `SettingsRuns.CancelIsKept` | pipetune-gtk/src/settings-transaction.cpp:108-119 | After Cancel, through any edits, replies, reports, losses and reconnections short of restoring defaults, the wish remains exactly the baseline. |
| `SettingsRuns.ConflictIsNoticed` | pipetune-gtk/src/settings-transaction.cpp:250-275 | A report raises a conflict if and only if it comes while idle, is not older than the last one, and differs in a compared field or a known card; a report during an operation is not seen. |
| `SettingsRuns.ReplyIsAdopted` | pipetune-gtk/src/settings-transaction.cpp:175-204 | A successful reply that has the operation's own fields right is adopted without a conflict, whatever else it brings, and more operations follow exactly when not all is as wished. |
| `SettingsRuns.OutsideChangeSurvivesIffWished` | pipetune-gtk/src/settings-transaction.cpp:121-204 | A change made outside during an operation is brought in by the reply, and when the wishes are driven to the end without any conflict, a field group keeps it if and only if it is what the dialog wished anyway. |
| `SettingsRuns.OutsideChangeIsOverwritten` | pipetune-gtk/src/settings-transaction.cpp:250-262 | A concrete run: an idle timeout changed outside while the rate is being set is dropped, adopted with the reply, and set back by the next operation. |
| `SettingsRuns.NoSilentOverwrite` | pipetune-gtk/src/settings-transaction.cpp:121-296 | Once a conflict is noticed no operation begins and neither Apply nor closing is allowed, whatever happens, until Cancel, defaults or a reconnection. |
| `SettingsRuns.ApplyIsConfirmed` | pipetune-gtk/src/settings-transaction.cpp:286-319 | What Apply stores has been confirmed by the daemon, a stored Apply leaves nothing dirty, and a failed one changes nothing. |
| `SettingsRuns.DisconnectedIsIdle` | pipetune-gtk/src/settings-transaction.cpp:206-212 | In every run a disconnected transaction has nothing in flight. |
| `SettingsRuns.DoneWhenMatched` | pipetune-gtk/src/settings-transaction.cpp:121-161 | From an idle state with a valid wish nothing is due if and only if every compared field and the profiles match. |
| `SettingsRuns.DriveAdvances` | pipetune-gtk/src/settings-transaction.cpp:121-204 | With an honest daemon each operation settles its own fields for good: the next is strictly later in the dependency order. |
| `SettingsRuns.Converges` | pipetune-gtk/src/settings-transaction.cpp:121-204 | From any idle state an honest daemon is sent at most four operations, in strictly increasing order, and none is left exactly when everything matches. |
| `SettingsRuns.PendingThenConverges` | pipetune-gtk/src/settings-transaction.cpp:73-204 | In every run from opening: a pending operation plus at most four more, in strictly increasing order, and none is left exactly when everything matches. |
| `SettingsRuns.OpeningHolds` | pipetune-gtk/src/settings-transaction.cpp:73-96 | Opening establishes the transaction invariant. |
| `SettingsRuns.PendingFinishes` | pipetune-gtk/src/settings-transaction.cpp:175-204 | An operation already in flight, honoured, leaves an idle state that can be driven on although the wishes changed meanwhile. |
| `SettingsHistory.ConfirmedIsLastWord` | pipetune-gtk/src/settings-transaction.cpp:175-275 | Over every run the confirmed revision and every compared setting are those of the last message taken over: the opening, a reconnection, an accepted report, or a successful reply with its own fields right. |
| `SettingsHistory.ConfirmedProfileIsLast` | pipetune-gtk/src/settings-transaction.cpp:175-275 | Over every run each card's confirmed profile is the one the daemon last named for it in a message taken over, or carried out with the output operation. |
| `SettingsHistory.WishIsLastAsked` | pipetune-gtk/src/settings-transaction.cpp:73-319 | Over every run the wish is the last edit before a cancellation, the defaults, or the checkpoint a cancellation goes back to; what is saved, the checkpoint, cancellation and connection are read off the events too. |
| `SettingsHistory.ObstaclesAreHistory` | pipetune-gtk/src/settings-transaction.cpp:163-284 | Over every run: in flight is the last operation begun and neither answered nor cut off; a conflict stands exactly since a surprising report that nothing has ended; and a refusal stands exactly since a refused or wrong reply after which nothing was asked, reported or cut off. |
| `SettingsHistory.ChangesAreContradictions` | pipetune-gtk/src/settings-transaction.cpp:214-232 | A report changes something exactly if one of its entries differs from what was known of its card just before it. |
| `SettingsHistory.CancelledCloses` | pipetune-gtk/src/settings-transaction.cpp:277-330 | A connected dialog at rest that is cancelled and driven by an honest daemon until nothing is due may close. |
| `SettingsHistory.DrivenCanBeApplied` | pipetune-gtk/src/settings-transaction.cpp:121-319 | A wish driven until nothing is due can be applied exactly if it or its profiles differ from what is saved and the checkpoint, and applying makes it the saved configuration and the confirmation the checkpoint. |
| `OutputMapping.RemoveOutputDevice` | pipetune-gtk/src/output-mapping-model.cpp:36-60 | The in-place edit releases the device's slots, trims the trailing run it owned, and is taken back when the draft would be invalid. |
| `OutputMapping.CompactOutputChannels` | pipetune-gtk/src/output-mapping-model.cpp:62-73 | The erase keeps exactly the assigned slots in order. |
| `OutputMapping.MoveOutputChannel` | pipetune-gtk/src/output-mapping-model.cpp:75-91 | Erase and insert perform the move; an index out of range changes nothing. |
| `OutputMapping.ReplaceOutputDevice` | pipetune-gtk/src/output-mapping-model.cpp:93-121 | Vanished channels stay reserved with their label and new channels are appended, or nothing changes. |
| `OutputMapping.Review` | pipetune-gtk/src/output-mapping-model.cpp:53-59 | The validation under single mode accepts exactly the drafts that keep every mapping rule, enabled devices or not. |
| `OutputMappingLaws.RemoveLaw` | pipetune-gtk/src/output-mapping-model.cpp:36-60 | On a valid draft removal never fails, every other slot keeps number and contents, the device's own slots are emptied but keep their label, only the maximal trailing run it owned disappears, and exactly that device is gone. |
| `OutputMappingLaws.CompactLaw` | pipetune-gtk/src/output-mapping-model.cpp:62-73 | On a valid draft compaction never fails and doing it twice is doing it once. |
| `OutputMappingLaws.CompactDistributes` | pipetune-gtk/src/output-mapping-model.cpp:65-67 | Compaction is an order-preserving filter: it distributes over concatenation. |
| `OutputMappingLaws.SourceIncreases` | pipetune-gtk/src/output-mapping-model.cpp:65-67 | Compacted slots keep the order of the slots they come from. |
| `OutputMappingLaws.SourceCovers` | pipetune-gtk/src/output-mapping-model.cpp:65-67 | No assigned slot is lost: it is found behind the assigned slots before it. |
| `OutputMappingLaws.MovedIsRenumbering` | pipetune-gtk/src/output-mapping-model.cpp:82-84 | A move is a bijective renumbering and the inverse move undoes it. |
| `OutputMappingLaws.MoveKeepsOrder` | pipetune-gtk/src/output-mapping-model.cpp:82-84 | Beside the moved slot the others keep their order. |
| `OutputMappingLaws.MoveLaw` | pipetune-gtk/src/output-mapping-model.cpp:75-91 | On a valid draft a move in range never fails, the label travels with the assignment, the other slots keep their order, and moving back restores the whole configuration. |
| `OutputMappingLaws.ReplaceLaw` | pipetune-gtk/src/output-mapping-model.cpp:93-121 | Replacement succeeds if and only if the new device is well formed, used nowhere else, suits the saved intent and fits; then every other device's slots are unchanged, surviving channels keep theirs, vanished ones stay reserved with their label, and new ones follow in order. |
| `OutputMappingLaws.EditKeepsDraft` | pipetune-gtk/src/output-mapping-model.cpp:36-121 | A failed edit changes nothing, and only a replacement can be rejected by validation. |
| `OutputMappingLaws.EditsKeepDraft` | pipetune-gtk/src/output-mapping-model.cpp:36-121 | Over any sequence of edits each physical channel has at most one slot, every configured device stays completely assigned, and identifiers stay unique. |
| `OutputOrder.FirstChannels` | pipetune-gtk/src/output-mapping-model.cpp:15-25 | Each device's key is its lowest slot, unassigned devices after all slots; should identifiers repeat, the k-th namesake gets the k-th slot. |
| `OutputOrder.StableSort` | pipetune-gtk/src/output-mapping-model.cpp:26-32 | The sort yields a permutation ordered by key, equal keys in saved order. |
| `OutputOrder.KeysStep` | pipetune-gtk/src/output-mapping-model.cpp:17-25 | Giving a slot to the first device of its name that has none keeps every device's key right. |
| `OutputOrder.ConfiguredOutputOrder` | pipetune-gtk/src/output-mapping-model.cpp:13-34 | The order is a stable sorted permutation of the devices by that key. |
| `OutputOrder.StableOrderIsUnique` | pipetune-gtk/src/output-mapping-model.cpp:30-32 | There is only one such order, so the keys determine the result. |
| `AssetPath.CanonicalPath` | pipetune/src/asset_file.cpp:116-166 | The loop over the mutated pending list terminates and computes the resolution function, dependencies and failing queries included. |
| `AssetPath.FoundIsCanonical` | pipetune/src/asset_file.cpp:116-166 | A returned path has only plain names, every proper prefix an existing directory, and no symbolic link anywhere. |
| `AssetPath.CanonicalIsFixpoint` | pipetune/src/asset_file.cpp:116-166 | A canonical path resolves to itself through no link. |
| `AssetPath.FixpointIffCanonical` | pipetune/src/asset_file.cpp:116-166 | The paths that resolve to themselves are exactly the canonical ones. |
| `AssetPath.WalkAppend` | pipetune/src/asset_file.cpp:145-156 | In the recursive semantics a concatenation is walked part by part, which is why a link's target may be spliced in front. |
| `AssetPath.ResolveIsWalk` | pipetune/src/asset_file.cpp:116-166 | The splicing loop agrees with a recursive semantics that walks each link's target completely, with the same limit of forty links and the same failures. |
| `AssetPath.ResolveConfinedAssetPath` | pipetune/src/asset_file.cpp:168-189 | The confined lookup, error cases and dependencies included, is the specified one. |
| `AssetPath.LexicalTestIsConfinement` | pipetune/src/asset_file.cpp:184-186 | The lexical comparison accepts exactly the paths strictly below the root, component by component. |
| `AssetPath.ConfinedLaw` | pipetune/src/asset_file.cpp:168-189 | A confined lookup finds a path if and only if the root is canonical and the recursive semantics finds that path strictly below it; a path found elsewhere, and a root that changed, are reported as such and only then. |
| `AssetPath.RefusedAsWritten` | pipetune/src/asset_file.cpp:172-179 | A request is refused as written if and only if the root is not absolute, the path is absolute or empty, or a component goes up or has a NUL, a colon or a backslash; then nothing is watched. |
| `AssetTrail.ResolveWatchesTrail` | pipetune/src/asset_file.cpp:116-166 | The loop collects exactly the trail of the recursive semantics: each link before the trail of its target, then that of the rest of the way. |
| `AssetTrail.TrailIsLinksThenStop` | pipetune/src/asset_file.cpp:140-161 | A trail names every link once for each time it was followed, in order, and besides them only the missing path, non-directory or broken link at which the way ended; if something was found, links only. |
| `AssetTrail.ConfinedWatches` | pipetune/src/asset_file.cpp:178-188 | A confined lookup watches the root and the path as given, the trails of its two resolutions and the path it found. |
| `CacheReclaim.PinRegistry.IsPinned` | pipetune/src/asset_cache.cpp:54-58 | A path is pinned exactly while somebody holds a pin made for it. |
| `CacheReclaim.PinRegistry.PinEntry` | pipetune/src/asset_cache.cpp:42-52 | A live pin is shared, an expired one replaced, and exactly this path joins the held ones. |
| `CacheReclaim.PinRegistry.Release` | pipetune/src/asset_cache.cpp:27-28 | A path stays held until its last holder lets go. |
| `CacheReclaim.DiskCache.Enumerate` | pipetune/src/asset_cache.cpp:216-241 | Collects exactly the regular files named by a key, with their total size, and fails if and only if it exceeds 64 bits. |
| `CacheReclaim.WithoutBytes` | pipetune/src/asset_cache.cpp:249-251 | Deleting an entry takes exactly its own bytes out of the usage, and nothing out of the pinned bytes if it is not pinned. |
| `CacheReclaim.DiskCache.Reclaim` | pipetune/src/asset_cache.cpp:209-254 | Entries are deleted in order of age; none that anybody holds is deleted; every deleted entry is no newer than any surviving one nobody holds; before each deletion, the last one included, there was still too little room; success means the required bytes fit; and past the size check it fails as occupied exactly when the held entries alone leave no room. |
| `CacheReclaim.DiskCache.Write` | pipetune/src/asset_cache.cpp:292-327 | An entry somebody holds survives every write to another key; only what fits is published; success means the complete entry is there, within the budget and held, and the usage is that after the needed evictions, less the replaced file, plus exactly its bytes; a failed write leaves no pin behind. |
| `CacheReclaim.PublishedIsEntry` | pipetune/src/asset_cache.cpp:38-40 | A file published under a valid key counts as a cache entry. |
| `CacheReclaim.EntriesAreKeyed` | pipetune/src/asset_cache.cpp:33-40 | The entries are exactly the regular files named by sixty-four hexadecimal digits and the suffix, and no two keys share a name. |
| `CacheReclaim.PublishedTakes` | pipetune/src/asset_cache.cpp:308-317 | Publishing puts exactly the new bytes on the usage and takes what the same name took up before off it. |
| `CacheReclaim.WroteWithin` | pipetune/src/asset_cache.cpp:296-312 | Whatever a write does, it leaves the usage within the budget or no larger than it was. |
| `CacheReclaim.BudgetHolds` | pipetune/src/asset_cache.cpp:209-327 | Over every run of writes, failed and truncated ones included, usage stays within the budget, and a child pinned throughout, or foreign to the cache, survives. |
| `CacheReclaim.NeededSnoc` | pipetune/src/asset_cache.cpp:246-252 | Deleting only while room is short makes every deletion of the sequence necessary. |
| `CacheEntry.LittleRoundTrip` | pipetune/src/asset_cache.cpp:101-119 | Four little-endian bytes give back the 32-bit length. |
| `CacheEntry.FourRoundTrip` | pipetune/src/asset_cache.cpp:101-119 | Any four bytes are the encoding of the word they stand for. |
| `CacheEntry.Put` | pipetune/src/asset_cache.cpp:101-103 | The shifting loop writes the four bytes of the word in place and nothing else. |
| `CacheEntry.GetWord` | pipetune/src/asset_cache.cpp:115-119 | The accumulating loop reads the word back. |
| `CacheEntry.MakeHeader` | pipetune/src/asset_cache.cpp:97-109 | The array filled in place is magic, two lengths and the digest of text and payload. |
| `CacheEntry.MakeMetadata` | pipetune/src/asset_cache.cpp:60-86 | The text holds the key, the fourteen fields in order and the diagnostics; an empty diagnostic, an unwritable or an overlong text is refused. |
| `CacheEntry.EncodeEntry` | pipetune/src/asset_cache.cpp:299-317 | What a write streams is header, text and payload, or a refusal of an unfit asset. |
| `CacheEntry.EncodedIff` | pipetune/src/asset_cache.cpp:299-305 | An entry is written if and only if the payload has one byte to 1 GiB and the size its fields state, no diagnostic is empty, and the metadata can be written within 64 KiB. |
| `CacheEntry.EntryLayout` | pipetune/src/asset_cache.cpp:97-109 | A written entry byte by byte: magic, two lengths with the lowest byte first, the digest of everything behind the header, text and payload. |
| `CacheEntry.DecodeEntry` | pipetune/src/asset_cache.cpp:111-160 | The reader's checks and loops, in their order, are the specified decoding. |
| `CacheEntry.RoundTrip` | pipetune/src/asset_cache.cpp:97-160 | A written entry reads back with its payload, all fourteen fields and all diagnostics if and only if the payload is within the reader's limit; under another key it is refused. |
| `CacheEntry.AcceptedIsFramed` | pipetune/src/asset_cache.cpp:111-160 | Whatever is accepted is exactly the header for some text and the returned payload, followed by the two; its size field is right and no diagnostic is empty. |
| `CacheEntry.OtherLengthIsRejected` | pipetune/src/asset_cache.cpp:120-124 | A file of any other length that carries the same two lengths is refused. |
| `CacheEntry.AlteredIsRejected` | pipetune/src/asset_cache.cpp:126-128 | No file is accepted whose text or payload was altered so that the digest shows it. |
| `CacheEntry.TruncatedIsRejected` | pipetune/src/asset_cache.cpp:313-319 | Every strict prefix of an entry, as an interrupted write leaves it, is refused by every reader. |
| `MemoryReservation.AdvanceHolds` | pipetune/src/asset_preparation_resources.cpp:16-50 | Each atomic step of a reservation, release, move, shrink or resize keeps the books balanced, between other threads' steps. |
| `MemoryReservation.EveryInterleaving` | pipetune/src/asset_preparation_resources.cpp:16-50 | After any interleaving the counter is the sum of all live leases and of what operations in flight hold, and stays within the limit every request works under. |
| `MemoryReservation.NeverUnderflows` | pipetune/src/asset_preparation_resources.cpp:26-43 | No thread is ever about to subtract more than the counter holds. |
| `MemoryReservation.QuietCounter` | pipetune/src/asset_preparation_resources.cpp:16-50 | At rest the counter is exactly the sum of the reservations' own sizes. |
| `MemoryReservation.RefusedGrowthKeepsLease` | pipetune/src/asset_preparation_resources.cpp:45-50 | A growth refused at any point of any run leaves its lease and the counter as they were. |
| `MemoryReservation.GrantedIffFits` | pipetune/src/asset_preparation_resources.cpp:16-24 | With nobody else at work a reservation is granted if and only if it fits beside the live ones under its limit, and a refusal changes nothing. |
| `MemoryOutcomes.MoveGivesBytes` | pipetune/src/asset_preparation_resources.cpp:31-37 | With nobody else at work a move assignment gives the target the source's bytes, leaves the source empty and takes exactly the target's former bytes off the counter; onto itself it does nothing. |
| `MemoryOutcomes.MoveNewGivesBytes` | pipetune/src/asset_preparation_resources.cpp:28-29 | A move construction gives the new reservation the bytes, leaves the source empty and the counter alone. |
| `MemoryOutcomes.ShrinkGivesBack` | pipetune/src/asset_preparation_resources.cpp:39-43 | A shrink leaves the size asked for and gives back exactly the difference; asked for more, it changes nothing. |
| `MemoryOutcomes.ResizeSettles` | pipetune/src/asset_preparation_resources.cpp:45-50 | A resize to less gives back the difference; to more, it is granted if and only if the growth fits beside everything that lives, and then size and counter grow by it; else nothing changes. |
| `MemoryOutcomes.DestroyGivesBack` | pipetune/src/asset_preparation_resources.cpp:26 | Destruction takes exactly the reservation's bytes off the counter. |
| `MemoryOutcomes.QuietRests` | pipetune/src/asset_preparation_resources.cpp:16-50 | Every run that has come to rest is in a state these outcomes speak of. |
| `SetOutputCodec.MakeSelections` | pipetune/src/control_protocol.cpp:643-657 | The loop with its set of seen texts accepts exactly the lists of well-formed selections of cards that look different. |
| `SetOutputCodec.MakeSetOutputControlRequest` | pipetune/src/control_protocol.cpp:621-660 | The document built step by step is the specified one, or none. |
| `SetOutputCodec.ReadSelections` | pipetune/src/control_protocol.cpp:312-327 | The loop stops at the first bad element with that element's error. |
| `SetOutputCodec.ParseSetOutput` | pipetune/src/control_protocol.cpp:278-337 | The branch's checks, in their order, are the specified parsing. |
| `SetOutputLaws.SeenKeyInjective` | pipetune/src/control_protocol.cpp:645-646 | Without NUL in the fields two cards look repeated exactly when they are the same card. |
| `SetOutputLaws.MadeIffSendable` | pipetune/src/control_protocol.cpp:621-660 | A request is written if and only if its configuration validates, its preset has no NUL and its selections are at most sixteen, well formed and apart. |
| `SetOutputLaws.MadeIff` | pipetune/src/control_protocol.cpp:621-660 | The same field by field: which texts may be empty, which may hold no NUL, how many selections there may be and which must be apart. |
| `SetOutputLaws.OrderDoesNotMatter` | pipetune/src/control_protocol.cpp:278-337 | The same members in any order, each once, are parsed alike. |
| `SetOutputLaws.SelectionsRoundTrip` | pipetune/src/control_protocol.cpp:312-327 | A written list of well-formed selections reads back exactly when no card has a NUL and none comes twice. |
| `TextLayer.CarriedIffWellEncoded` | pipetune/src/control_protocol.cpp:41-42 | A text crosses the writer and the reader unchanged if and only if it is well-formed UTF-8. |
| `TextLayer.CarriedIsWellEncoded` | pipetune/src/control_protocol.cpp:88-97 | What is read back is always well-formed. |
| `TextLayer.ReceivedIffWellEncoded` | pipetune/src/control_protocol.cpp:88-97 | A document crosses unchanged if and only if all its texts are well-formed. |
| `SetOutputLaws.ReceivedRoot` | pipetune/src/control_protocol.cpp:621-660 | The document that arrives has the members of the request with its texts as they are read back. |
| `SetOutputLaws.ReadBackIs` | pipetune/src/control_protocol.cpp:278-337 | What becomes of any written request: refused for a NUL in a card or for cards that have become the same, refused for its configuration, or accepted with its texts as they are read back. |
| `SetOutputLaws.RoundTrip` | pipetune/src/control_protocol.cpp:278-337 | A written request reads back as itself if and only if no card has a NUL in a field and every text is well-formed UTF-8; a card with a NUL is refused. |
| `SetOutputLaws.StrayByteIsAltered` | pipetune/src/control_protocol.cpp:41-42 | A concrete request that is accepted as another: a preset path with a stray byte. |
| `SetOutputLaws.StrayBytesCollide` | pipetune/src/control_protocol.cpp:41-42 | A concrete request of two different cards that arrive as the same one and are refused. |
| `SetOutputLaws.NulCardIsMadeButRefused` | pipetune/src/control_protocol.cpp:645-650 | A concrete request that is written but not accepted: a card location with a NUL. |
| `SetOutputLaws.AcceptedIsStrict` | pipetune/src/control_protocol.cpp:283-285 | By counting alone an accepted request has no unknown and no repeated member, in the root, in any selection and in any card. |
| `SetOutputLaws.AcceptedIsSendable` | pipetune/src/control_protocol.cpp:278-337 | Every accepted request can be written again and reads back the same if and only if its texts are well-formed, as they are when it came from the strict reader. |
| `JsonValue.CountedKeys` | pipetune/src/output_configuration_json.cpp:19-27 | An object with as many members as required names, all present, repeats none and has no other. |
| `Autostart.ReadBody` | pipetune/src/autostart_override.cpp:116-127 | Reading by buffers gives the whole file if and only if it is at most 64 KiB. |
| `Autostart.HasMarker` | pipetune/src/autostart_override.cpp:131-148 | The scanner finds the marker if and only if some line, one trailing carriage return aside, equals it. |
| `Autostart.IsManagedMask` | pipetune/src/autostart_override.cpp:110-149 | A file counts as managed if and only if it is at most 64 KiB and has the marker line. |
| `Autostart.MaskIsManaged` | pipetune/src/autostart_override.cpp:21-27 | The scanner recognises what the writer writes. |
| `Autostart.AutostartFiles.MaskGtkAutostart` | pipetune/src/autostart_override.cpp:151-207 | For every combination of failing file operations: the files, the outcome and the warning afterwards. |
| `Autostart.AutostartFiles.RestoreGtkAutostart` | pipetune/src/autostart_override.cpp:209-269 | For every combination of failing file operations: the files, the outcome and the warnings afterwards. |
| `Autostart.CustomBodiesSurvive` | pipetune/src/autostart_override.cpp:151-269 | Through any sequence of calls with any failures the unmanaged bodies in the two files, counted, are the same. |
| `Autostart.BackupIsNeverOverwritten` | pipetune/src/autostart_override.cpp:166-189 | An existing backup stays until restoring moves it in the place of a mask. |
| `Autostart.FailureLeavesFiles` | pipetune/src/autostart_override.cpp:191-205 | A failed call leaves the files unchanged, or the only body in the backup with a warning. |
| `Autostart.MaskIsIdempotent` | pipetune/src/autostart_override.cpp:162-164 | A successful mask leaves a managed file in place, and masking again changes nothing and succeeds. |
| `Autostart.MaskSucceedsIff` | pipetune/src/autostart_override.cpp:151-207 | Masking succeeds if and only if a mask is there already, or there is no override and the mask can be written, or the user's own can be set aside with no older backup in its place and the mask written; then the user's own override is in the backup. |
| `Autostart.RestoreSucceedsIff` | pipetune/src/autostart_override.cpp:209-269 | Restoring succeeds if and only if both files can be inspected and a mask in place can be removed and the backup moved back; then no readable mask is left and a file of the user's was not touched. |
| `Autostart.MaskThenRestore` | pipetune/src/autostart_override.cpp:151-269 | Mask and restore give back both files if and only if the user had an unmanaged override, or neither file existed. |
| `Autostart.OrphanComesBack` | pipetune/src/autostart_override.cpp:257-267 | A concrete case where they do not: an orphaned backup becomes the override. |

## Left out

- Floating point: samples and gains are exact reals; rounding, infinities and NaN are not modelled.
- The 64-bit wrap of the ring's frame counters, which the slot computation does not survive either.
- OutputPath: sample-rate conversion, the measurement of the delay, master gain, peak meters and the copy into the device buffers.
- Memory orderings weaker than one atomic step per load, cell copy and publish.
- TransitionRuns.ClickBound: does not bound the step across a reset, because a reset forgets the last sample on purpose.
- Settings: the diagnostic texts, `startupConfigFromRuntime`, and direct writes of the user interface to the desired profiles other than choosing another profile for a card already observed.
- SettingsRuns.ReplyIsAdopted: is about the compared settings; a card's profile changed outside during an operation is not in the reply at all and stays unseen until it is reported again.
- SettingsRuns.OpeningHolds: takes it that the daemon's inventory names each card once when the dialog opens; later reports may repeat cards.
- SettingsRuns.Converges: counts the operations after a pending one, for a daemon whose reply differs from the state before only in the fields of the operation.
- OutputRouting: what the validation of an output configuration accepts is modelled, not the order of its checks and their messages.
- The encoding of an output configuration as JSON, which is assumed to be an inverse pair that exists exactly for valid configurations and reads no text that is not in the document.
- JSON syntax and SHA-256: documents are trees and the digest is a function with sixty-four characters. That the writer puts the replacement character for each stray byte, and that the reader takes only well-formed text, follows the documented flags of yyjson, which is not part of this model.
- The other requests and replies of the control protocol.
- Asset paths are resolved in one file tree that does not change meanwhile; reading the file in chunks and the use of the dependency list are not modelled.
- CacheReclaim.DiskCache.Reclaim: nobody takes or releases a pin between two deletions of one call; the touching of an entry by a reader is not modelled; paths are file names in the one cache directory.
- CacheReclaim: modification times are numbers already combined from seconds and microseconds.
- MemoryReservation: the reservation object is a value in the state of the step system rather than a class, because its operations interleave; the smaller limit of 32-bit hosts is covered by the limit parameter.
- Autostart: the temporary file, permissions and synchronisation of the mask are one write that succeeds or fails as a whole, and nobody else changes the two files.
- The user interface, D-Bus, sockets, audio server, decoders and resamplers.
