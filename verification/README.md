# CRAS models

A verification project beside the ChromeOS audio server (CRAS). It models the stateful cores whose
correctness depends on several functions together, in the form the C code has (classes whose methods update
fields, arrays and lists in place), and proves what each promises over every input, every block size and every
run.

| file | part of CRAS | main result |
|---|---|---|
| Biquads, Eq, Eq2 | dsp/eq.c, dsp/eq2.c | loop fusion, loop interchange and block sizes change no sample; stereo is two mono chains |
| Emphasis | dsp/drc.c | emphasis lifts what changes, and de-emphasis undoes it for every signal and every split into blocks |
| Crossover | dsp/crossover.c, dsp/crossover2.c | the stereo crossover is the mono crossover on each channel |
| DrcGains, LookAhead, DrcKernel | dsp/drc_kernel.c | the ring is a queue; every sample leaves D frames late, scaled once by its own division's gain; disabled, it is a pure delay |
| Drc | dsp/drc.c | block sizes do not matter; the output law of the whole compressor, whatever is enabled; with disabled kernels it is its crossover's band sum, delayed: bands stay aligned and the emphasis cancels around the crossover |
| Shm | common/cras_shm.h | the double buffer is one first-in first-out queue; the exact condition for peeking |
| ClientConnection | libcras/cras_client.c | whatever the system answers, the dispatcher terminates, keeps every state's resource invariant, makes the calls that are due and ends in the state they explain; runs that connect and reconnect |
| EventLog, Seqlock | libcras/cras_client.c, server/audio_thread_log.h | what the lock-free readers return is exact, with the exact conditions |
| BufferShare | server/buffer_share.c | write points and offsets conserve what was reported |
| ByteBuffer, TimeSpecs, A2dp | common/byte_buffer.h, common/cras_util.h, server/cras_a2dp_*.c | every packet carries one write block, numbered and timed field by field, no byte is lost, packets are paced; exactly when encoding can stall |
| UtList, Alert | common/utlist.h, server/cras_alert.c | every datum reaches every callback once and in order, after the alert is prepared, although callbacks raise alerts |
| Plc | plc/cras_plc.c | the history is what was played; shape of replaced and blended frames, with fades the right way round |

`Arithmetic` holds facts about quotients and multiples, `Options` the option datatype. `dafny verify dfyconfig.toml` checks the project.

## How the model is made

Samples of the filters are real numbers; samples of the loss concealment are 16-bit integers blended over the
reals. Unsigned 32-bit fields wrap where the code can let them wrap (shared-memory offsets, buffer shares,
update counts, sequence numbers, timestamps). System calls, messages, clocks, the SBC encoder and user
callbacks are methods that may answer anything their contracts allow. Sizes and constants are those of the code.
Objects the code updates in place are classes; ghost fields record what the code does not keep: everything
sent, logged, raised or played.

Several preconditions are the code's own protocol: writes of at least one frame into an available
shared-memory buffer, reads of at most what is queued, an SBC frame that fits the MTU, an MTU of at most 2048,
connection callbacks that do not call back.

## Findings

- Fusing a pair of equaliser stages is right exactly while the histories of the pair agree (`Eq.FusionSoundIff`).
  Agreement of all pairs suffices for the whole equaliser (`Eq.AgreeingPairsFuse`); it is also necessary for the last
  pair (`Eq.LastPairIff`), while later stages can hide a disagreement (`Eq.SilenceHides`).
  `eq_append_biquad_direct` after samples have been processed can break it; `Eq.AppendInMidStream` is a run that does
  so, with the exact condition on its coefficients.
- `cras_shm_get_readable_frames` computes its offset in 32 bits and wraps. `Shm.AudioShm.ReadableIsQueueIff` is the
  exact condition for a right answer, `Shm.AudioShm.ReadableFails` an offset at which it is wrong.
- The log reader recognises overwritten entries exactly if the ring carries more than one timestamp
  (`EventLog.FindOldest`, `EventLog.ReadAtlog`); `EventLog.OneTimestamp` is a ring, of any length, that does not.
  If then more than a ring's length was written since its last read, it returns more events than the buffer has, or
  its copy leaves ring and buffer. `EventLog.ReadAtlog` says exactly when, `EventLog.ReadBurst` has an input for each.
- The state reader can accept a mixture after a read that spans n increments exactly when n is a positive multiple
  of 2^32 (`Seqlock.MixtureIff`).
- `buffer_share_get_new_write_point` takes more from the offsets than it returns exactly when somebody is active
  and every offset exceeds the buffer; together with offsets that wrap this is all that upsets the balance of what was reported
  and returned (`BufferShare.StepConserves`). `BufferShare.BeyondBuffer` and `BufferShare.ReportsWrap` are runs that do.
- A2DP encoding works on contiguous stretches, so a queued block that straddles the end of the PCM ring is never
  encoded and the device never sends again (`A2dp.Device.PutBuffer`). `A2dp.RunAcrossSeam` is a run that ends there
  exactly when a block fits the ring and its size does not divide 65536; otherwise no device ever stalls
  (`A2dp.Device.NeverStalled`).
- The frame count in an A2DP packet has 4 bits. It is right exactly for write blocks of fewer than 16 SBC frames
  (`A2dp.FrameCountIff`); `A2dp.RunToPacket` sends a packet, `A2dp.SeventeenFrames` is a configuration for which it is
  wrong.
- `byte_buffer_set_used_size` on a buffer in use keeps its contents only under the condition of
  `ByteBuffer.Buffer.SetUsedSize`; `ByteBuffer.CutThroughData` is a run that loses them.
- In the loss concealment a lag above 307 makes a further lost frame replay samples that the shift of the buffer
  did not move (`Plc.RepeatIsPeriodicIff`); `Plc.LongLag` reaches such a frame in three calls. The amplitude match
  depends on the history alone exactly for lags up to 255 (`Plc.ScaleFromHistoryIff`);
  `Plc.OneHistoryTwoReplacements` are two runs with one history and different replacements.
- A callback that raises its own alert with new data while it is being handed a datum makes the code free the node in
  delivery and use it afterwards, exactly if the alert lacks CRAS_ALERT_FLAG_KEEP_ALL_DATA (`Alert.Alerts.Raise`);
  `Alert.RaiseOwnAlert` is a run that does.
- The header of cras_alert.h names a function cras_alert_keep_all_data; the code has the flag
  CRAS_ALERT_FLAG_KEEP_ALL_DATA instead, and the model follows the code.

## Model

| member | source | states |
|---|---|---|
| Biquads.ChainIsCascade | cras/src/dsp/eq.c:43-74 | Loop interchange: running a chain stage by stage over a block and running it sample by sample through all stages give the same samples and the same histories. |
| Biquads.ChainBlocksIsChain | cras/src/dsp/eq.c:43-74 | Cutting a signal into blocks of any sizes changes neither the samples nor the final histories. |
| Biquads.ChainSplit | cras/src/dsp/eq.c:43-74 | Filtering a + b is filtering a, then b with the histories a left. |
| Biquads.ChainSnocSample | cras/src/dsp/eq.c:43-74 | One more sample through a stage-by-stage chain is one step of the sample-by-sample cascade. |
| Eq.FusedPairIsTwoStages | cras/src/dsp/eq.c:81-123 | Loop fusion for one pair: the second stage needs no input history of its own because it always equals the first stage's output history. |
| Eq.FusedIsPrototype | cras/src/dsp/eq.c:76-148 | The fused loop and the prototype loop, in step before a buffer, give the same samples and are in step after it. |
| Eq.FusedEqualiserIsCascade | cras/src/dsp/eq.c:43-148 | From zero history and over any sequence of buffers the loop in use gives exactly the prototype's samples, which are those of the sample-by-sample cascade of the joined signal. |
| Eq.FusionSoundIff | cras/src/dsp/eq.c:76-123 | For two sections of arbitrary history: fusing them gives the right samples for every signal if and only if their histories agree. |
| Eq.MidStreamAppendIff | cras/src/dsp/eq.c:34-41 | A section appended behind one that has processed a single sample 1: the pair is right for every signal if and only if the first coefficient of the one in front, or both past-input coefficients of the one appended, vanish. |
| Eq.PairChains | cras/src/dsp/eq.c:43-148 | Two sections: both loops give the same samples on every buffer exactly when the pair is right. |
| Eq.AgreeingPairsFuse | cras/src/dsp/eq.c:43-148 | Any number of stages of any history: if the histories of every fused pair agree, both loops give the same samples on every buffer. |
| Eq.LastPairIff | cras/src/dsp/eq.c:43-148 | An even number of stages whose pairs but the last agree: both loops give the same samples on every buffer if and only if the last pair agrees too. |
| Eq.SilenceHides | cras/src/dsp/eq.c:43-148 | Agreement of an earlier pair is not necessary: with two silent sections behind it both loops give the same samples whatever its histories. |
| Eq.AppendInMidStream | cras/src/dsp/eq.c:34-148 | Append, process one sample, append: the equaliser reached has loops that agree on every buffer if and only if that condition on the coefficients holds. |
| Eq.Equaliser.constructor | cras/src/dsp/eq.c:14-18 | A new equaliser has no stages. |
| Eq.Equaliser.AppendDirect | cras/src/dsp/eq.c:34-41 | A section is added at the end, or refused with -1 when ten are there. |
| Eq.Equaliser.FilterInPlace | cras/src/dsp/eq.c:48-73 | One section over a buffer in place; the rest of buffer and table is untouched. |
| Eq.Equaliser.FilterPairInPlace | cras/src/dsp/eq.c:81-123 | Two sections at once in place; the second one gets back only its output history. |
| Eq.Equaliser.Process1 | cras/src/dsp/eq.c:43-74 | The buffer and all histories become those of the stage-by-stage chain. |
| Eq.Equaliser.Process | cras/src/dsp/eq.c:76-148 | The buffer and all histories become those of the fused chain, for odd and even stage counts. |
| Eq2.IdentityTail | cras/src/dsp/eq2.c:14-26 | Identity sections behind a chain change no sample and stay identity sections. |
| Eq2.Padding | cras/src/dsp/eq2.c:317-343 | Running more slots than a channel has stages is running just its stages. |
| Eq2.Equaliser2.constructor | cras/src/dsp/eq2.c:14-26 | Both channels are empty and every slot is an identity filter. |
| Eq2.Equaliser2.AppendDirect | cras/src/dsp/eq2.c:43-50 | A section joins one channel, the other channel keeps its stages; -1 when ten are there. |
| Eq2.Equaliser2.ProcessOne | cras/src/dsp/eq2.c:52-109 | The interleaved loop over both channels is one filter on each. |
| Eq2.Equaliser2.ProcessSlots | cras/src/dsp/eq2.c:317-343 | The loop over the slots runs each channel's column of slots as a chain. |
| Eq2.Equaliser2.Process | cras/src/dsp/eq2.c:317-343 | Each channel gets exactly its own mono chain, even when the channels have different stage counts. |
| Emphasis.FilterSolves | cras/src/dsp/eq2.c:52-109 | A section started at rest satisfies its difference equation at every time. |
| Emphasis.Eliminate | cras/src/dsp/drc.c:171-193 | Two sections in series satisfy one fourth-order equation between input and output. |
| Emphasis.FiltersCommute | cras/src/dsp/drc.c:171-193 | Two sections started at rest commute on every signal. |
| Emphasis.FilterCommutesWithChain | cras/src/dsp/drc.c:171-193 | A section started at rest commutes with a whole chain started at rest. |
| Emphasis.StagePair | cras/src/dsp/drc.c:135-168 | The emphasis section has the zeros as roots of its numerator and the poles as roots of its denominator, and passes a constant unchanged; the de-emphasis section is its inverse. |
| Emphasis.LiftsOnset | cras/src/dsp/drc.c:135-168 | With zeros above their poles, both below 1, an emphasis section lifts the first sample of a signal: it emphasises what changes. |
| Emphasis.StageInverse | cras/src/dsp/drc.c:135-168 | A de-emphasis stage right after its emphasis stage returns the input; its histories are the emphasis histories exchanged. |
| Emphasis.ChainInverse | cras/src/dsp/drc.c:171-193 | All emphasis stages followed by all de-emphasis stages is the identity on every signal. |
| Emphasis.DeemphasisUndoesEmphasis | cras/src/dsp/drc.c:374-395 | The same for a stream cut into any blocks, each block emphasised and de-emphasised in turn: every block comes back. |
| Emphasis.AppendStage | cras/src/dsp/drc.c:184-192 | One stage is appended to both channels. |
| Emphasis.FrequenciesFall | cras/src/dsp/drc.c:171-193 | The four design frequencies are the anchor and the anchor divided by the stage ratio once, twice and three times. |
| Emphasis.InitEmphasisEq | cras/src/dsp/drc.c:171-193 | The two equalisers hold, on both channels and at rest, stages that are inverse one by one; the emphasis stages have the roots for these four frequencies, zeros above and poles below, provided no such root is 1. |
| Crossover.Lr4IsBiquadTwice | cras/src/dsp/crossover.c:33-98 | A fourth-order section is one biquad chained with itself, samples and histories alike. |
| Crossover.BandsSplit | cras/src/dsp/crossover.c:182-188 | Block sizes do not matter for the three bands of a crossover. |
| Crossover.Split | cras/src/dsp/crossover.c:33-98 | The low band replaces the input, the high band goes to the second buffer, both filters keep their histories. |
| Crossover.Merge | cras/src/dsp/crossover.c:107-170 | The sum of both filters replaces the input. |
| Crossover.Mono.Process | cras/src/dsp/crossover.c:182-188 | The three buffers become the low, middle and high band of the input. |
| Crossover.Split2 | cras/src/dsp/crossover2.c:245-350 | The interleaved stereo loop is four independent filters. |
| Crossover.Merge2 | cras/src/dsp/crossover2.c:562-664 | The interleaved stereo loop is the mono sum of two filters on each channel. |
| Crossover.Stereo.Process | cras/src/dsp/crossover2.c:677-689 | The stereo crossover does on each channel exactly what the mono crossover does. |
| DrcGains.DetectorFollowsLouder | cras/src/dsp/drc_kernel.c:501-561 | The detector takes the louder channel, whichever it is and whatever its sign. |
| DrcGains.DetectorRates | cras/src/dsp/drc_kernel.c:501-561 | A lower gain is taken at once; a higher one is approached at the rate for -2 dB above that level and at its own rate below; the average never exceeds 1. |
| DrcGains.EnvelopeMeans | cras/src/dsp/drc_kernel.c:315-391 | Release exactly if the wanted gain is above the current one: it forgets the attack, and its rate follows from the difference, from 0 for 12 dB to 3 for none. An attack takes its rate from the largest difference since the last release, at least half a dB. |
| DrcGains.AttackIsApproach | cras/src/dsp/drc_kernel.c:887-921 | The gain of sample k of the four-lane attack loop is the per-sample recurrence g + rate * (target - g) after k + 1 steps. |
| DrcGains.ApproachMonotone | cras/src/dsp/drc_kernel.c:887-921 | For a rate strictly between 0 and 1 the gain moves towards the target at every sample and never reaches or passes it. |
| DrcGains.ReleaseClosedForm | cras/src/dsp/drc_kernel.c:922-956 | Clamping each release lane once per group of four is clamping the exponential itself; the first group is not clamped. |
| DrcGains.GainOfSample | cras/src/dsp/drc_kernel.c:873-957 | In both branches sample k is scaled by the master gain times the warped gain after k + 1 samples, where that gain is the recurrence or the clamped exponential. |
| DrcGains.StoredGain | cras/src/dsp/drc_kernel.c:921-955 | What a division stores is the gain after its 32 samples, and nothing else of the control fields. |
| DrcGains.AttackGoesOn | cras/src/dsp/drc_kernel.c:887-921 | In attack the gains of the next division are those of samples 33 to 64 of one recurrence. |
| DrcGains.ReleaseGoesOn | cras/src/dsp/drc_kernel.c:922-956 | In release the stored gain is at most 1, and the next division grows from it. |
| DrcKernel.Band.CompressLanes | cras/src/dsp/drc_kernel.c:873-957 | Exactly the 32 frames of the division are scaled, each once, by the master gain times the warped gain after its sample; the gain stored is the one after 32 samples. |
| DrcKernel.FirstLanes | cras/src/dsp/drc_kernel.c:889-896 | The four lanes start with the gains of samples 0 to 3. |
| DrcKernel.NextLanes | cras/src/dsp/drc_kernel.c:914-956 | Multiplying by the fourth power moves the lanes to the gains of the next four samples. |
| DrcKernel.Band.Detect | cras/src/dsp/drc_kernel.c:520-559 | The loop computes the detector average over 32 frames that lie in one piece. |
| DrcKernel.Band.UpdateDetectorAverage | cras/src/dsp/drc_kernel.c:501-560 | The detector reads exactly the 32 newest frames of the queue. |
| DrcKernel.RingNewest | cras/src/dsp/drc_kernel.c:501-519 | The 32 ring entries that end at the write index are the newest of the queue, also at the wrap. |
| DrcKernel.RingMoves | cras/src/dsp/drc_kernel.c:975-1031 | Storing a chunk at the write index and removing one at the read index moves the look-ahead queue by the chunk. |
| DrcKernel.ChunkFits | cras/src/dsp/drc_kernel.c:1001-1031 | The two copies of a delay-only chunk do not wrap, do not meet, and the distance of the indices is kept. |
| DrcKernel.FragmentFits | cras/src/dsp/drc_kernel.c:975-995 | A fragment inside a division never crosses the end of the ring, at either index. |
| DrcKernel.Band.constructor | cras/src/dsp/drc_kernel.c:31-66 | A new kernel is a queue of 256 zero frames. |
| DrcKernel.Band.SetPreDelay | cras/src/dsp/drc_kernel.c:76-104 | The delay is the request rounded down to whole divisions and kept within 32 and 992; a change empties the ring. |
| DrcKernel.BandsAligned | cras/src/dsp/drc_kernel.c:76-104 | The delay is determined by the request, so bands with one request have one latency. |
| DrcKernel.Band.MoveChunk | cras/src/dsp/drc_kernel.c:1010-1030 | Input samples and queued samples of both channels change places; the indices keep their distance. |
| DrcKernel.Band.ProcessDelayOnly | cras/src/dsp/drc_kernel.c:1001-1031 | For any block size: what leaves followed by what is queued is what was queued followed by what came in. |
| DrcKernel.Band.CompressOutput | cras/src/dsp/drc_kernel.c:873-957 | The front division of the queue is compressed and nothing else changes. |
| DrcKernel.Band.ProcessOneDivision | cras/src/dsp/drc_kernel.c:966-971 | Detector, envelope and output division in this order. |
| DrcKernel.Band.Fragment | cras/src/dsp/drc_kernel.c:975-995 | A fragment is that many single frames through the look-ahead queue. |
| DrcKernel.Band.ProcessEnabled | cras/src/dsp/drc_kernel.c:1049-1060 | Any block is its frames one by one through the look-ahead queue. |
| DrcKernel.Band.Process | cras/src/dsp/drc_kernel.c:1033-1060 | A disabled kernel conserves its samples; an enabled one, primed at its first block, pushes every frame through the queue. |
| LookAhead.PushAllSplit | cras/src/dsp/drc_kernel.c:1033-1060 | Processing a + b in one call is processing a, then b. |
| LookAhead.PushFragment | cras/src/dsp/drc_kernel.c:975-995 | Frames up to the end of a division only move the queue; the frame that completes it triggers one division. |
| LookAhead.PushInStep | cras/src/dsp/drc_kernel.c:966-995 | One frame keeps the stream invariant: reached positions are scaled once with their own division's gain, the others are untouched. |
| LookAhead.NewestFrames | cras/src/dsp/drc_kernel.c:501-519 | When a division completes, the newest 32 queue entries are exactly the last 32 input samples, not yet scaled. |
| LookAhead.EnabledOutput | cras/src/dsp/drc_kernel.c:1033-1060 | Every sample that leaves an enabled kernel is the input of D frames ago scaled exactly once, by the gain of its own 32-frame division, which follows from the earlier input divisions. |
| LookAhead.ControlOfDivision | cras/src/dsp/drc_kernel.c:960-975 | From division to division the gain goes on where the last one ended, at first from 1; the detector has seen the last input division, and its warped level is the new target. |
| LookAhead.DisabledOutput | cras/src/dsp/drc_kernel.c:1001-1031 | A disabled kernel is a pure delay by D, zero before the start. |
| LookAhead.DelayComposes | cras/src/dsp/drc_kernel.c:1001-1031 | Blocks of a disabled kernel compose: block sizes are irrelevant. |
| Shm.AudioShm.constructor | cras/src/common/cras_shm.h:561-573 | Two empty areas of the used size, side by side. |
| Shm.AudioShm.CheckedBufferOffset | cras/src/common/cras_shm.h:163-171 | The offset never lies outside the samples area, whatever the header says. |
| Shm.AudioShm.CheckedReadOffset | cras/src/common/cras_shm.h:184-199 | A read offset is inside buffer and samples area; an invalid one counts as 0. |
| Shm.AudioShm.CheckedWriteOffset | cras/src/common/cras_shm.h:203-221 | A write offset is cut off at the end of buffer and samples area. |
| Shm.AudioShm.IndicesMeet | cras/src/common/cras_shm.h:422-474 | Write index equals read index exactly when both buffers are empty or both hold data; the queue is empty exactly when both are empty. |
| Shm.AudioShm.ReadableIsQueueIff | cras/src/common/cras_shm.h:282-307 | For every offset and frame size: peeking k frames ahead points at frame k of the queue, at a stretch that ends with the queue or the buffer, or at nothing when fewer frames are queued, if and only if the byte position stays below 2^32 or wraps to beyond all that is written. |
| Shm.LocateIsQueue | cras/src/common/cras_shm.h:282-307 | The same for arbitrary offsets of two areas. |
| Shm.AudioShm.ReadableWraps | cras/src/common/cras_shm.h:282-307 | Offsets that differ by a multiple of 2^32 bytes get one answer, for every frame size. |
| Shm.AudioShm.ReadableFails | cras/src/common/cras_shm.h:282-307 | Whenever anything is queued, offset 2^32 is answered with the first frame although nothing is queued there. |
| Shm.AudioShm.GetBytesQueued | cras/src/common/cras_shm.h:310-326 | The sum over both buffers is the length of the queue. |
| Shm.AudioShm.GetFrames | cras/src/common/cras_shm.h:329-337 | The frame count is the length of the queue; the error for part of a frame does not occur. |
| Shm.AudioShm.BufferWriteComplete | cras/src/common/cras_shm.h:422-431 | The write index moves to the other buffer. |
| Shm.AudioShm.BufferWrittenStart | cras/src/common/cras_shm.h:434-442 | The frames at the start of the write area join the end of the queue. |
| Shm.AudioShm.Write | cras/src/common/cras_shm.h:434-442 | A client's copy followed by the call appends exactly its data to the queue. |
| Shm.DropOldest | cras/src/common/cras_shm.h:446-474 | The three cases of a read: within the buffer, into the other buffer, or both used up; each leaves the queue without its oldest n bytes. |
| Shm.AudioShm.Advance | cras/src/common/cras_shm.h:446-474 | The header update, index and offsets, including the step into the other buffer. |
| Shm.AudioShm.BufferRead | cras/src/common/cras_shm.h:446-474 | Exactly the oldest frames leave the queue, also across both buffers, and the invariant holds again. |
| ClientConnection.ToInt32 | cras/src/libcras/cras_client.c:1675-1685 | A 32-bit client id fits a non-negative int exactly below 2^31. |
| ClientConnection.OpenMeaning | cras/src/libcras/cras_client.c:534-553 | A connection counts as open exactly when it was announced and no loss was announced since. |
| ClientConnection.PairedMeaning | cras/src/libcras/cras_client.c:615-684 | The history invariant means that every announced loss follows an announced connection with no other loss in between. |
| ClientConnection.Client.constructor | cras/src/libcras/cras_client.c:2086-2188 | A new client is disconnected and holds nothing. |
| ClientConnection.Client.ErrorDelayNextAction | cras/src/libcras/cras_client.c:411-448 | The retry timer is started, waited for, or left; failures leave the state and descriptor as stated. |
| ClientConnection.Client.WaitForSocketNextAction | cras/src/libcras/cras_client.c:460-465 | The state moves on exactly when the socket file exists. |
| ClientConnection.Client.WaitForWritableNextAction | cras/src/libcras/cras_client.c:478-529 | A client without a descriptor opens a socket and connects it, one with a writable descriptor connects it, and in no other case is a call made; every answer leads to the stated state and descriptor. |
| ClientConnection.Client.AttachShm | cras/src/libcras/cras_client.c:1610-1646 | The server state is mapped once; a failed mapping is left behind for the clean-up. |
| ClientConnection.Client.HandleMessageFromServer | cras/src/libcras/cras_client.c:1658-1829 | Only a first connected message changes id and mapping; afterwards messages change neither. |
| ClientConnection.Client.ConnectTransitionAction | cras/src/libcras/cras_client.c:534-553 | On success the event holds 1 and the connection is announced. |
| ClientConnection.Client.FirstMessageNextAction | cras/src/libcras/cras_client.c:561-580 | The client becomes connected only with an id and a mapping. |
| ClientConnection.Client.DisconnectTransitionAction | cras/src/libcras/cras_client.c:615-684 | Everything is given back; the next state and the announcement depend on the state left. |
| ClientConnection.StepThenDispatch | cras/src/libcras/cras_client.c:691-732 | An action and the dispatch it leads to are one dispatch: the laws below survive the recursion. |
| ClientConnection.Client.Step | cras/src/libcras/cras_client.c:702-721 | The action of each state: which call it makes first, how it ends, and what the callback is told. |
| ClientConnection.Client.ServerFdDispatch | cras/src/libcras/cras_client.c:691-732 | It terminates for every answer of the environment, returns -ENOTCONN exactly when it ends disconnected and 0 otherwise, and establishes the resource invariant of the state it ends in. The first system call made is the one that is due, none is made if none is due, and the last one explains the state and descriptor reached; only a first message connects. The callback is told exactly what the change of state announces. In an obliging environment the state reached is the stated one. |
| ClientConnection.Client.ServerConnect | cras/src/libcras/cras_client.c:737-744 | Only a disconnected client starts to connect; without the socket file it waits for it, with the file it opens a socket, and an obliging server gets it to the first message. |
| ClientConnection.Client.ServerDisconnect | cras/src/libcras/cras_client.c:749-757 | The client ends disconnected with nothing held and without any announcement. |
| ClientConnection.Client.SockFileWaitCallback | cras/src/libcras/cras_client.c:762-802 | A deleted socket file sends any client that is not disconnected to waiting for it, silently and without a call; a created one makes a waiting client open a socket and connect; nothing else changes anything. |
| ClientConnection.StartConnecting | cras/src/libcras/cras_client.c:691-802 | A run from a new client with an obliging server: it opens a socket, connects it and waits for the first message as soon as the file exists. |
| ClientConnection.ConnectToServer | cras/src/libcras/cras_client.c:561-802 | The first message connects it, with the id sent, exactly if that id is below 2^31; otherwise it waits to try again, and nobody is told. |
| ClientConnection.Reconnect | cras/src/libcras/cras_client.c:561-802 | Whatever a client that is not disconnected was doing, a socket file deleted and created again and a first message connect it again, exactly if the id is below 2^31. |
| EventLog.Entry | cras/src/server/audio_thread_log.h:74-91 | Tag and 24 bits of seconds share a word and can be read back; the data keep their places. |
| EventLog.Log.LogData | cras/src/server/audio_thread_log.h:74-91 | The event joins the history and the ring keeps holding the newest events, each in the slot of its number. A clock that has not gone back since the last event keeps the history ordered, as the reader needs it. |
| EventLog.Log.Sync | cras/src/server/audio_thread.c:873-874 | The published position catches up with the write position. |
| EventLog.NoStep | cras/src/libcras/cras_client.c:3134-3150 | Timestamps do not step back between neighbouring slots that both hold their own events, nor anywhere if the ring carries one timestamp. |
| EventLog.StepAtOldest | cras/src/libcras/cras_client.c:3134-3150 | They step back just below the oldest surviving event if the ring carries more than one timestamp. |
| EventLog.FindOldest | cras/src/libcras/cras_client.c:3134-3150 | The backward scan ends, also at index 0, and finds the oldest surviving unread event if and only if nothing is missing or the ring carries more than one timestamp. |
| EventLog.OneTimestamp | cras/src/libcras/cras_client.c:3134-3150 | The condition can fail for a ring of any length: one event more than there are slots, all with one timestamp. By FindOldest the scan then returns the read index. |
| EventLog.Pieces | cras/src/libcras/cras_client.c:3152-3165 | A stretch of slots no longer than the ring is one or two pieces of it, told apart by the order of first and last slot. |
| EventLog.StretchIsHistory | cras/src/libcras/cras_client.c:3152-3165 | A stretch of surviving events is that part of the history. |
| EventLog.TwoPieces | cras/src/libcras/cras_client.c:3152-3160 | For any number of events, two copies take exactly the stretch of those numbers that the pieces hold. |
| EventLog.CopyPieces | cras/src/libcras/cras_client.c:3152-3165 | Two copies never leave ring and buffer; one copy does exactly if it is for more events than the ring has. Otherwise exactly that stretch of slots is put into the front of the buffer and the rest of it is untouched. |
| EventLog.ReadAtlog | cras/src/libcras/cras_client.c:3115-3169 | The reader gets, in order, exactly the events up to the published position that it has not seen and that survive, and learns how many it missed, if and only if none are missing or the ring carries more than one timestamp; otherwise it gets the slots as they are and is told that nothing is missing. It returns more than the ring has if and only if this scan fails and more than a ring's length was written since its last read; its copy leaves the buffer if and only if in addition the slot of the first event is not behind that of the last. |
| EventLog.ReadBurst | cras/src/libcras/cras_client.c:3115-3169 | A log of n events at one time, written through the logger: the exact numbers for which a reader overruns or returns too much, with 12289 events as an input for each. |
| Seqlock.StepKeeps | cras/src/libcras/cras_client.c:1345-1367 | Every step of server or reader keeps: at an even count the region is the last one published, and while the count stands still a copy comes from one published region. |
| Seqlock.ReadsAreAtomic | cras/src/libcras/cras_client.c:2675-2689 | Over every interleaving in which no read sleeps through a wrap of the counter, every accepted copy is one published state, never a mixture. |
| Seqlock.MixtureIsAccepted | cras/src/libcras/cras_client.c:1359-1367 | A copy that is none of the published states and meets an equal count is accepted, and then the property fails. |
| Seqlock.MixtureIff | cras/src/libcras/cras_client.c:1345-1367 | Some run of server and reader has a mixture accepted after a read that spans n increments if and only if n is a positive multiple of 2^32. |
| BufferShare.FirstSlot | cras/src/server/buffer_share.c:106-119 | The first slot with an id is its active slot if the id is active at all: why the update may ignore the used flag. |
| BufferShare.SlotChanged | cras/src/server/buffer_share.c:72-104 | Changing one slot changes only the users that slot stood for and stands for. |
| BufferShare.LowerAll | cras/src/server/buffer_share.c:135-138 | Subtracting the minimum from every slot, with wrap-around on unused ones, lowers every active offset by it. |
| BufferShare.Share.constructor | cras/src/server/buffer_share.c:51-62 | A new table has no active users. |
| BufferShare.Share.FindUnused | cras/src/server/buffer_share.c:12-22 | The first unused slot, if there is one. |
| BufferShare.Share.FindId | cras/src/server/buffer_share.c:24-35 | A slot is found exactly when the id is active, and it is its active slot. |
| BufferShare.Share.AllocMoreIds | cras/src/server/buffer_share.c:37-49 | The table doubles, the users stay, the new slots are unused whatever else they hold. |
| BufferShare.Share.AddId | cras/src/server/buffer_share.c:72-91 | A new id starts at offset 0; an active id is refused with -EEXIST; the table grows if it is full. The ledger takes this step and stays balanced. |
| BufferShare.Share.RmId | cras/src/server/buffer_share.c:93-104 | The id is no longer active; -ENOENT if it was not. The ledger takes this step and stays balanced. |
| BufferShare.Share.OffsetUpdate | cras/src/server/buffer_share.c:106-120 | Exactly the active user's offset grows; an inactive id changes nobody. The ledger takes this step and stays balanced unless the offset wraps. |
| BufferShare.Share.FindLeast | cras/src/server/buffer_share.c:124-134 | The first loop finds the smallest active offset, at most one more than the buffer size. |
| BufferShare.Share.LowerSlots | cras/src/server/buffer_share.c:135-138 | The second loop lowers every active offset by it. |
| BufferShare.Share.GetNewWritePoint | cras/src/server/buffer_share.c:122-144 | The smallest active offset is taken from every active offset and returned, or 0 is returned if it exceeds the buffer. The ledger takes this step and stays balanced if somebody is within the buffer or nobody is active. |
| BufferShare.Share.OffsetOf | cras/src/server/buffer_share.c:160-165 | The active user's offset, 0 for others. |
| BufferShare.Share.GetData | cras/src/server/buffer_share.c:167-171 | The active user's data, null for others. |
| BufferShare.StepConserves | cras/src/server/buffer_share.c:72-144 | A call on a balanced book (returned write points plus current offset are the deltas reported) leaves it balanced if and only if no offset wraps and, for a new write point, nobody is active or somebody is within the buffer. After such a write point some offset is 0, and all stay within the buffer if all were. |
| BufferShare.RunConserves | cras/src/server/buffer_share.c:72-144 | Over every run of calls from the start: the book is balanced throughout if and only if every call keeps to these rules. The methods of Share take such steps in their ledger. |
| BufferShare.WritePointConserves | cras/src/server/buffer_share.c:122-144 | A new write point keeps the balance if and only if nobody is active or it returns what it takes. |
| BufferShare.BeyondBuffer | cras/src/server/buffer_share.c:72-144 | A run of three calls that upsets the balance: a user is added, reports one more than the buffer has, and the write point returned is 0 while its offset becomes 0. |
| BufferShare.ReportsWrap | cras/src/server/buffer_share.c:72-120 | A run that upsets it by wrapping: a user reports 2^32 in two calls and has offset 0. |
| ByteBuffer.SpansExact | cras/src/common/byte_buffer.h:48-68 | Both spans reach to the end of data, room or ring, and at most two of each drain or fill the buffer. |
| ByteBuffer.FrontInOnePiece | cras/src/common/byte_buffer.h:88-98 | The bytes at the read pointer are the front of the queue. |
| ByteBuffer.Buffer.constructor | cras/src/common/byte_buffer.h:23-33 | A new buffer is an empty queue of the whole size. |
| ByteBuffer.Buffer.SetUsedSize | cras/src/common/byte_buffer.h:35-40 | The used size never exceeds the allocation. For any size and contents: buffer and queue survive if and only if the size stays, or the data do not wrap and end before both the old and the new end. |
| ByteBuffer.CutThroughData | cras/src/common/byte_buffer.h:35-40 | A buffer of four bytes with three queued whose used size is set to two is not well-formed any more. |
| ByteBuffer.Buffer.AdjustReadable | cras/src/common/byte_buffer.h:70-76 | The level is set and the write index follows; a smaller level keeps the front of the queue. |
| ByteBuffer.Buffer.ReadView | cras/src/common/byte_buffer.h:88-98 | The readable stretch is a front of the queue, empty exactly when the queue is. |
| ByteBuffer.Buffer.IncrementRead | cras/src/common/byte_buffer.h:100-106 | The front of the queue leaves, never more than is queued. |
| ByteBuffer.Buffer.IncrementWrite | cras/src/common/byte_buffer.h:120-128 | Up to the writable bytes, what is stored at the write pointer joins the end of the queue. For any increment: index and level are as computed, and the buffer stays well-formed if and only if the level need not saturate or saturates at whole turns. |
| ByteBuffer.Buffer.Reset | cras/src/common/byte_buffer.h:130-135 | The queue is empty. |
| TimeSpecs.AfterIsLater | cras/src/common/cras_util.h:143-148 | For normalised times the field-wise comparison compares nanoseconds. |
| TimeSpecs.Add | cras/src/common/cras_util.h:104-113 | The loop gives a normalised sum, exact in nanoseconds. |
| TimeSpecs.SubtractExact | cras/src/common/cras_util.h:87-102 | The difference is exact and its two fields never have opposite signs. |
| TimeSpecs.FramesToTime | cras/src/common/cras_util.h:39-45 | The duration of a number of frames, exact up to rounding down to a nanosecond, normalised. |
| A2dp.FullHoldsWriteBlock | cras/src/server/cras_a2dp_iodev.c:295-300 | A buffer with room for n SBC frames and no more holds exactly one write block of PCM. |
| A2dp.FrameCountIff | cras/src/server/cras_a2dp_info.c:116-130 | The 4-bit field of a packet is its number of SBC frames if and only if a write block is shorter than 16 of them. |
| A2dp.PacketsHoldBytes | cras/src/server/cras_a2dp_info.c:116-187 | No packet of a proper stream is empty. |
| A2dp.CrasSbcEncode | cras/src/common/cras_sbc_codec.c:93-119 | As many whole blocks as there are and fit are encoded in order; after an error nothing counts. |
| A2dp.Device.A2dpEncode | cras/src/server/cras_a2dp_info.c:150-178 | Encoded blocks join the packet under construction and all counters follow; it stops only for lack of data or of room. |
| A2dp.Device.EncodeOnce | cras/src/server/cras_a2dp_iodev.c:226-237 | One pass: whole blocks leave the readable stretch for the packet, or nothing changes; the read index stays at a block boundary. |
| A2dp.Device.EncodeA2dpPacket | cras/src/server/cras_a2dp_iodev.c:221-239 | Bytes move from the ring into the packet, none lost or repeated, until the packet is full, less than a block is queued, or the device is stalled; the last never happens if the block size divides the ring size. With less than a block readable nothing changes. |
| A2dp.SeamlessIff | cras/src/server/cras_a2dp_iodev.c:221-239 | Over all block boundaries of the ring: no queued block straddles its end if and only if the block size divides the ring size or exceeds it. |
| A2dp.Device.ExhaustedMeans | cras/src/server/cras_a2dp_iodev.c:221-239 | Encoding stops exactly with a full packet, with less than a block queued, or with a packet that has room and a queued block that straddles the end of the ring: a stall. |
| A2dp.Device.NeverStalled | cras/src/server/cras_a2dp_iodev.c:221-239 | No state of a device whose block size divides the ring size, or exceeds it, is a stall. |
| A2dp.FillToSeam | cras/src/server/cras_a2dp_iodev.c:392-543 | Block after block through put_buffer up to the last block boundary: all are encoded, the ring is empty and the packet has room. |
| A2dp.RunAcrossSeam | cras/src/server/cras_a2dp_iodev.c:221-543 | A run from a new device, block after block and then one across the end of the ring, ends in a stall if and only if a block fits the ring and does not divide its size. |
| A2dp.RunToPacket | cras/src/server/cras_a2dp_iodev.c:221-543 | A run from a new device that sends its first packet: its sequence number is 0, its timestamp the write block, and the 4-bit field is its number of SBC frames if and only if a write block is shorter than 16 of them. |
| A2dp.SeventeenFrames | cras/src/server/cras_a2dp_info.c:116-130 | A configuration for which it is not: 17 SBC frames in a packet. |
| A2dp.HeaderFields | cras/src/server/cras_a2dp_info.c:116-148 | Field by field, in every proper stream: packet i has sequence number i modulo 65536, the number of PCM frames sent up to its end modulo 2^32 as timestamp, and its number of SBC frames modulo 16. |
| A2dp.FullPacketIsProper | cras/src/server/cras_a2dp_info.c:116-148 | A full packet sent next continues a stream whose packets carry one write block each, stay within the MTU and count sequence numbers and samples. |
| A2dp.SendKeeps | cras/src/server/cras_a2dp_info.c:116-148 | A successful send keeps all counters and the byte balance. |
| A2dp.Device.AvdtpWrite | cras/src/server/cras_a2dp_info.c:116-148 | Only a successful send appends the packet and empties the buffer; it returns one write block, and the stream stays proper, so that the header fields are those of HeaderFields. A failure changes nothing. |
| A2dp.Device.A2dpWrite | cras/src/server/cras_a2dp_info.c:180-187 | Nothing is sent before the packet is full. |
| A2dp.SentIsWriteBlocks | cras/src/server/cras_a2dp_info.c:116-187 | The PCM frames sent are the number of packets times the write block. |
| A2dp.Device.constructor | cras/src/server/cras_a2dp_iodev.c:250-320 | A configured device has sent and queued nothing; write block and flush period follow from MTU, codec and rate. |
| A2dp.Device.Start | cras/src/server/cras_a2dp_iodev.c:322-334 | The pace is counted from now. |
| A2dp.TryKeeps | cras/src/server/cras_a2dp_iodev.c:392-470 | A try whose time has come keeps the schedule: next flush time is start plus packets sent times the period. |
| A2dp.PacketsBounded | cras/src/server/cras_a2dp_iodev.c:392-496 | The number of packets that have left by any time is bounded by the time since the start. |
| A2dp.Device.TryFlush | cras/src/server/cras_a2dp_iodev.c:428-470 | One try: a packet leaves and the next flush time moves by exactly one period, or neither happens. |
| A2dp.Device.Flush | cras/src/server/cras_a2dp_iodev.c:426-496 | The part from do_flush on: it ends because the backlog falls, and stops only because it is too early, the socket is full, less than a block is readable, or at most two write blocks remain; a packet with room is left alone. A full socket ends with 0, any other failed send with its error, and a second packet leaves only with more than two write blocks queued. |
| A2dp.Device.EncodeAndFlush | cras/src/server/cras_a2dp_iodev.c:392-496 | It keeps balance, stream and schedule and stops only for one of these reasons, with the same results; not running, it changes nothing. With room in the packet it encodes if a block is readable and otherwise changes neither ring nor packet nor stream. |
| A2dp.Device.GetBuffer | cras/src/server/cras_a2dp_iodev.c:507-526 | As many whole frames as asked for and as fit in one piece. |
| A2dp.Device.PutBuffer | cras/src/server/cras_a2dp_iodev.c:528-543 | The frames stored join what went in, or too many are refused and nothing changes. A stalled device stays stalled: read index, packet and stream never change again. |
| UtList.List.Append | cras/src/common/utlist.h:153-165 | The node joins the end of the list; first node's prev is the new last node. |
| UtList.List.Delete | cras/src/common/utlist.h:195-210 | Exactly that node leaves, in all three cases, and keeps its own links. |
| Alert.RaiseKeeps | cras/src/server/cras_alert.c:124-143 | A datum raised joins the queue, or without KEEP_ALL_DATA takes the place of the queued one. |
| Alert.HeadDelivered | cras/src/server/cras_alert.c:107-115 | Once every callback has had the head of the queue it may leave: nothing is lost or delivered twice. |
| Alert.Alert.constructor | cras/src/server/cras_alert.c:42-53 | A new alert is not pending and has no data. |
| Alert.Alerts.constructor | cras/src/server/cras_alert.c:34-53 | A system of new alerts satisfies the invariant. |
| Alert.Alerts.Pending | cras/src/server/cras_alert.c:118-122 | The alert is pending and announced. |
| Alert.Alerts.PendingData | cras/src/server/cras_alert.c:124-143 | The datum is queued at a pending, announced alert; with KEEP_ALL_DATA behind all queued ones, otherwise in their place: a queued node stays if and only if the alert has KEEP_ALL_DATA. |
| Alert.Alerts.Raise | cras/src/server/cras_alert.c:118-143 | Raising one alert, from anywhere: the queued nodes of the alert in delivery stay if and only if it is not that alert that is raised with new data, or it has KEEP_ALL_DATA. If they stay, all others are left alone and lists and logs stay consistent. |
| Alert.RaiseOwnAlert | cras/src/server/cras_alert.c:103-143 | A callback that raises its own alert with new data while it is handed a datum: the node in delivery is still queued if and only if the alert has KEEP_ALL_DATA. |
| Alert.Alerts.RaisedStaysValid | cras/src/server/cras_alert.c:118-143 | Raising alerts between calls keeps the system invariant. |
| Alert.Alerts.RaiseBetweenCalls | cras/src/server/cras_alert.c:124-143 | Raising with data between calls: the datum is the last one queued at a pending, announced alert, and the system invariant holds. |
| Alert.Alerts.Prepare | cras/src/server/cras_alert.c:97-101 | The prepare function, if there is one, runs once more before any callback is called; it may raise alerts. |
| Alert.Alerts.CallAll | cras/src/server/cras_alert.c:103-112 | Every callback gets the datum, or NULL, once and in order, although each may raise alerts. |
| Alert.Alerts.DeliverHead | cras/src/server/cras_alert.c:109-115 | One round: the head goes to every callback and leaves; the remembered next node is the new head, and if there was none, data appended meanwhile wait at a pending alert. |
| Alert.Alerts.Deliver | cras/src/server/cras_alert.c:109-115 | The data loop ends and leaves data only at a pending alert. |
| Alert.Alerts.Process | cras/src/server/cras_alert.c:92-116 | A pending alert is prepared exactly once, and then its callbacks are all called; what is raised meanwhile is delivered or pending. |
| Alert.PassStep | cras/src/server/cras_alert.c:149-153 | Processing one alert after the other: pending alerts are announced or still to come. |
| Alert.Alerts.Pass | cras/src/server/cras_alert.c:149-153 | After a pass over all alerts every pending one is announced again. |
| Alert.Alerts.ProcessAllPendingAlerts | cras/src/server/cras_alert.c:145-154 | It ends; then no alert is pending, every callback of a KEEP_ALL_DATA alert has received every datum raised, once and in order, every alert that was pending was prepared and all its callbacks were called, and no callback of any alert has missed the last preparation, unless a callback made the code free a node in delivery, which cannot happen if all alerts have KEEP_ALL_DATA. |
| Alert.RaiseAndProcess | cras/src/server/cras_alert.c:34-154 | A run from a new system: data raised with a KEEP_ALL_DATA alert and then processed reach every callback, first and in order, whatever the callbacks raise. |
| Alert.QuietHasReceived | cras/src/server/cras_alert.c:92-154 | With an empty queue each callback has received everything raised, or without KEEP_ALL_DATA the newest. |
| Plc.ToS16 | cras/src/plc/cras_plc.c:80-85 | Within the sample range the value is truncated toward zero, by less than one; beyond it the result is the nearer end. |
| Plc.ToS16Keeps | cras/src/plc/cras_plc.c:80-85 | Conversion keeps the order. |
| Plc.WeightsAddUp | cras/src/plc/cras_plc.c:36-41 | The weights fall from 0.99 towards 0, strictly, from one sample to the next; weights in mirror positions add up to 1. |
| Plc.BlendIsBetween | cras/src/plc/cras_plc.c:87-95 | At any scales a blend lies between its two samples, each at its own scale. |
| Plc.BlendMovesOver | cras/src/plc/cras_plc.c:87-95 | From one sample to the next a blend of the same two samples moves away from the fading signal towards the other one. |
| Plc.BlendEnds | cras/src/plc/cras_plc.c:87-95 | A blend starts within a hundredth of the distance at the fading signal and ends so at the other one; in each half it is nearer to the right one, up to truncation. |
| Plc.BlendWithSilence | cras/src/plc/cras_plc.c:87-95 | Against silence a blend is the other sample, scaled and weighted. |
| Plc.OverlapAdd | cras/src/plc/cras_plc.c:87-95 | Sixteen samples become the blend of both sources as they were, the first source fading out, also when a source lies exactly under the output. |
| Plc.CorrelationMeans | cras/src/plc/cras_plc.c:135-145 | There is no correlation exactly if one of the two signals is silent, and it is the same either way round. |
| Plc.CrossCorrelation | cras/src/plc/cras_plc.c:135-145 | The loop computes the normalised dot product, not a number for silence. |
| Plc.PatternMatch | cras/src/plc/cras_plc.c:147-160 | The first of the best matches above the smallest float, 0 if there is none; always below the window length. |
| Plc.Scale | cras/src/plc/cras_plc.c:162-176 | The amplitude ratio is kept between 0.75 and 1.2. |
| Plc.ScaleIsBest | cras/src/plc/cras_plc.c:162-176 | Among all scales from 0.75 to 1.2 it brings the loudness of the replacement nearest to that of the last frame played. |
| Plc.AmplitudeMatch | cras/src/plc/cras_plc.c:162-176 | The loops compute that ratio. |
| Plc.RecentMoves | cras/src/plc/cras_plc.c:61-66 | One more frame moves the window of the last 375 samples by a frame. |
| Plc.GoodFrameBlends | cras/src/plc/cras_plc.c:97-123 | The first good frame after a loss starts as the replacement continues, moves over from it to the input where they overlap, first nearer to the one, then to the other, and is verbatim from sample 52 on. |
| Plc.SubstituteFades | cras/src/plc/cras_plc.c:197-209 | A replacement fades in from the zero frame to the scaled history, repeats it at that scale within one, and fades back to the original scale, wherever samples are in range. |
| Plc.SubstituteIsUnique | cras/src/plc/cras_plc.c:197-209 | The equations for the replacement, which refer to samples just written, determine the buffer. |
| Plc.RepeatIsPeriodicIff | cras/src/plc/cras_plc.c:210-218 | A further lost frame continues the period for every history if and only if the lag is at most 307; beyond that it replays samples the shift left behind. |
| Plc.LongLag | cras/src/plc/cras_plc.c:97-220 | Three calls from the start, a good frame with two pulses and two lost frames, reach lag 315 and a second lost frame that does not continue the period. |
| Plc.ScaleFromHistoryIff | cras/src/plc/cras_plc.c:192-196 | The scale of the first lost frame is determined by the last 375 samples played if and only if the lag is at most 255. |
| Plc.OneHistoryTwoReplacements | cras/src/plc/cras_plc.c:97-220 | Two runs from the start that have played the same last 375 samples, lose the same frame and find the same lag of 315 play different replacements, because one of them has lost a frame before. |
| Plc.MsbcPlc.constructor | cras/src/plc/cras_plc.c:68-73 | Silence has been played so far. |
| Plc.MsbcPlc.Reconverge | cras/src/plc/cras_plc.c:106-123 | The in-place steps give the blended frame, also when input and output are one buffer. |
| Plc.MsbcPlc.HandleGoodFrames | cras/src/plc/cras_plc.c:97-133 | A good frame passes unchanged, or blended after a loss; the history is again the last 375 samples played. |
| Plc.MsbcPlc.ScaleHistory | cras/src/plc/cras_plc.c:200-202 | The in-place loop, which reads samples it has just written, satisfies the recurrence everywhere. |
| Plc.MsbcPlc.Construct | cras/src/plc/cras_plc.c:197-209 | The buffer built for the first lost frame satisfies the equations of a replacement. |
| Plc.MsbcPlc.Replace | cras/src/plc/cras_plc.c:190-213 | Every slice stays inside the buffer for every lag; first loss and repetition build the buffer as stated. |
| Plc.MsbcPlc.HandleBadFrames | cras/src/plc/cras_plc.c:178-220 | The frame played, what is prepared for afterwards, and the history invariant, for first and further losses. |
| LookAhead.PushBlocksIsPushAll | cras/src/dsp/drc_kernel.c:1033-1060 | Any cut of a stream into blocks is the uncut run through the queue. |
| LookAhead.EnabledStream | cras/src/dsp/drc_kernel.c:1033-1060 | Over any sequence of blocks an enabled kernel's output is its input D frames late, each sample scaled once by its own division's gain. |
| Crossover.Mono.constructor | cras/src/dsp/crossover.c:172-180 | Section by section: low-pass and high-pass at rest, the first pair at the lower frequency, the others at the upper one. |
| Crossover.Stereo.constructor | cras/src/dsp/crossover2.c:667-675 | The same for both channels. |
| Drc.FilterIsLinear | cras/src/dsp/eq2.c:52-109 | A section adds: the sum of two signals gives the sum of outputs and of histories. |
| Drc.ChainIsLinear | cras/src/dsp/drc.c:374-395 | A chain at rest distributes over a sum of signals. |
| Drc.ChainOfShift | cras/src/dsp/drc.c:374-395 | A chain at rest commutes with a delay. |
| Drc.ChainsCommute | cras/src/dsp/drc.c:374-395 | Two chains at rest commute on every signal. |
| Drc.BandsAreBranches | cras/src/dsp/crossover2.c:677-689 | The bands of a crossover at rest are chains of fourth-order sections, the low band a sum of two. |
| Drc.BranchCancels | cras/src/dsp/drc.c:374-395 | De-emphasis after a band branch after emphasis is the branch alone. |
| Drc.EmphasisCancels | cras/src/dsp/drc.c:374-395 | Emphasis and de-emphasis cancel around the crossover and the band sum. |
| Drc.StepSplit | cras/src/dsp/drc.c:368-396 | One channel of the compressor with disabled kernels: processing a + b is processing a, then b. |
| Drc.StepBlocksIsStep | cras/src/dsp/drc.c:368-396 | Any cut into blocks is the uncut run. |
| Drc.DisabledCompressor | cras/src/dsp/drc.c:368-396 | With disabled kernels the whole compressor, over any blocks, is exactly the band sum of its crossover delayed by the common look-ahead. |
| Drc.KernelSplit | cras/src/dsp/drc_kernel.c:1033-1060 | A kernel, enabled or not: processing a + b is processing a, then b. |
| Drc.WholeSplit | cras/src/dsp/drc.c:368-396 | The whole compressor, both channels, any mix of enabled kernels, emphasis on or off: processing a + b is processing a, then b, with everything kept in between. |
| Drc.WholeBlocksIsStep | cras/src/dsp/drc.c:368-396 | Any cut into blocks is the uncut run, for any mix. |
| Drc.DisabledIsTwoSteps | cras/src/dsp/drc.c:368-396 | With emphasis on and all kernels disabled the compressor is two independent channels. |
| Drc.OffIsEmpty | cras/src/dsp/drc.c:374-395 | With the emphasis off the compressor gives the samples of one without emphasis stages. |
| Drc.DisabledStereo | cras/src/dsp/drc.c:368-396 | With equal look-aheads, from the start and over any blocks, with emphasis on or off, each of the two channels is its delayed band sum. |
| Drc.RunKernel | cras/src/dsp/drc.c:385-387 | A kernel over the first samples of two buffers delays them, or pushes them through its queue, primed once. |
| Drc.Sum3 | cras/src/dsp/drc.c:360-366 | The three bands are added into the first buffer; the rest of it is untouched. |
| Drc.NewKernel | cras/src/dsp/drc.c:212-240 | A kernel with its look-ahead set and its enabled flag fixed, silent. |
| Drc.NewKernels | cras/src/dsp/drc.c:212-240 | Each kernel gets its own request; kernels with equal requests have equal look-aheads. |
| Drc.NewFilters | cras/src/dsp/drc.c:171-210 | Both equalisers hold inverse stages, the emphasis having the roots for its four frequencies; the crossover is at rest; all parts are different objects; no root is 1. |
| Drc.DrcInit | cras/src/dsp/drc.c:34-40 | Everything kept is in the initial state of the theorems above, with inverse emphasis and de-emphasis stages, zeros and poles where they belong, in new objects; equal requests give equal look-aheads. |
| Drc.Compressor.SplitBands | cras/src/dsp/drc.c:374-380 | Emphasis, then three bands, on each channel. |
| Drc.Compressor.CompressBands | cras/src/dsp/drc.c:382-387 | Each kernel works on its own band and touches no other. |
| Drc.Compressor.JoinBands | cras/src/dsp/drc.c:389-395 | The de-emphasised sum of the bands replaces the data. |
| Drc.Compressor.CompressAndJoin | cras/src/dsp/drc.c:382-395 | Three kernels, then sum and de-emphasis, on the bands the crossover made. |
| Drc.Compressor.Process | cras/src/dsp/drc.c:368-396 | On both channels, for any mix of enabled kernels, with emphasis on or off: data and everything kept become exactly those of one step of the whole. |
| Drc.RunBlocks | cras/src/dsp/drc.c:368-396 | Blocks of both channels through the method, one after the other, are the blocks of the whole, for any mix. |
| Drc.RunDisabled | cras/src/dsp/drc.c:34-396 | A run: initialisation and then any blocks with all kernels disabled and one look-ahead request give on each channel the band sum of the input, delayed by a look-ahead of whole divisions between 32 and 992. |
| Drc.CompressorLaw | cras/src/dsp/drc.c:374-395 | From the initial state, over any blocks of both channels and with any kernels enabled: each channel leaves as the de-emphasised sum of the three bands of its emphasised signal, each sample of a band delayed by its kernel's look-ahead and, if the kernel is enabled, scaled by the gain of its division, which follows from both channels. |
| Drc.RunCompressor | cras/src/dsp/drc.c:34-395 | A run of drc_init and drc_process that obeys this law: emphasis stages with the roots at the four frequencies, each kernel with its own tuning, flag and look-ahead, crossover at the two frequencies. |

## Left out

- SIMD branches: only the portable loops are modelled; the others round and clamp differently.
- Floating-point rounding, exponentials, logarithms, the compression curve and coefficient design: real
  arithmetic, with these functions as parameters. The emphasis roots are a parameter whose values at the four
  design frequencies must not be 1; the exponential in the code is 1 only at frequency 0.
- Drc.Compressor.Process: a kernel's enabled flag does not change in mid-stream.
- Failing allocations, and freeing what was allocated.
- Shared memory for capture (cras_shm_buffer_written, cras_shm_check_write_overrun, cras_shm_buffer_read_current),
  volume, mute and callback fields; zero-length writes and reads of more than is queued.
- ClientConnection.ConnectToServer: its server listens, accepts and sends a first message, so that the run exists; the
  contracts of the client allow any answers.
- Sockets, poll, timers, mmap, threads, D-Bus, BlueZ and logging: only their outcomes, as arbitrary answers.
- ClientConnection.Client.ServerFdDispatch: a callback that calls back into the client or is replaced during a
  run is not modelled; stream teardown only empties the list of streams.
- Memory ordering: server and reader of the shared state interleave word by word over one memory; the snapshot
  of the event log is taken at one moment.
- The retry loops around the state readers, and a wrap of the 64-bit log position.
- Seqlock.ReadsAreAtomic: asks that no read sleeps through 2^32 increments; MixtureIff shows why.
- EventLog.ReadAtlog: says nothing of the buffer once a copy has left it.
- SBC frames are represented by the PCM block they stand for.
- A2dp.RunAcrossSeam: its encoder and socket do not fail and its clock stands, so that the run exists; the other
  contracts allow any answers. PCM frames of 2 or 4 bytes divide the ring size.
- A2DP throttle logging, suspend timers, polling callbacks, volume, no-stream mode, a2dp_reset and closing;
  overflow of the signed sample counters.
- Alerts that are created, destroyed or change their callbacks while alerts are processed; each alert's list of
  callbacks and the list of all alerts are fixed sequences, the data lists are linked nodes.
- Alert.Alerts.Raise: says nothing of what the code does after it has freed the node in delivery; processing then
  ends without any promise.
- Alert termination rests on finitely many raises, counted by the budget.
- Plc.CrossCorrelation: the quotient by the square root is a parameter; only its order matters.
- The mSBC decoder's zero frame is arbitrary. The count of lost frames does not overflow.
- Ini parsing, device lists, notification setters, message builders and the rest of the server: one branch each
  or input and output only.
