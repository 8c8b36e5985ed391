# A verified model of a software-radio toolkit

The toolkit receives, analyses and emits radio transmissions. This project models the parts
whose correctness is decided by code rather than by signal processing, in the form the code
has: objects with fields that are updated in place are classes, loops are loops, and each
method is proved against a function or a predicate that says what its result means. The
properties of the system are then proved about those functions, for all inputs and all runs.

## What is modelled

- **The sample ring** (`RingBuffer.dfy`, `Markers.dfy`, `RingProtocol.dfy`, `RingOverrun.dfy`,
  `RingProgress.dfy`). One producer stages samples and publishes them; readers copy without
  locks and look afterwards whether the samples were still there. Between operations the ring stands for an unbounded stream of
  samples and a finite map of markers. Under concurrency it is a protocol over single atomic
  loads and stores and single slot accesses: a true final check means that everything the
  reader copied is right, readers are wait-free, and public samples that are not overwritten are
  always delivered.
- **The burst detector** (`Reception.dfy`, `Activity.dfy`, `Grouping.dfy`, `Burst.dfy`,
  `RxTimeDomain.dfy`). Samples arrive in blocks of any size. The receiver refines an automaton
  on the whole stream, which in turn reports exactly the groups of activities of the stream. A
  description of those groups that does not walk over the stream is met by them and by nothing
  else. How the stream was cut into blocks does not matter.
- **The modulation machine** (`Synthesis.dfy`, `Waveform.dfy`, `Program.dfy`,
  `Modulation.dfy`, `FskTone.dfy`). On-off keying and frequency-shift keying are compiled to
  small programs with repetition, and a resumable interpreter fills buffers of any size from
  them. A compiled message emits its waveform exactly R + 1 times and stops, and every sample
  of the waveform is known.
- **The transmitter** (`Emission.dfy`, `EmissionRuntime.dfy`). Messages arrive at any time, are
  queued, sent one after the other in whole blocks, and retune the radio at most once each.
- **The on-off demodulator** (`OokDemod.dfy`, `OokLearn.dfy`, `Ook.dfy`). It learns the two
  lengths of the pulses and of the gaps from the burst itself, by clustering, and is taken only
  when it is sure of itself. What it learns from lengths of which two occur is known exactly.
  Bursts whose pulses or whose gaps alone carry the bits come back too, parted at the long
  lengths in between (`OneSided.dfy`).
- **The whole link from bits to bits** (`PulseTrain.dfy`, `KeyedSound.dfy`, `Link.dfy`,
  `Repetition.dfy`): a message that is compiled, played with its repetitions, heard, cut into
  bursts, and demodulated with what the demodulator has learned from it. A message of odd length
  comes back if and only if it meets a condition on its bits and its timing; messages of even
  length and copies that share a burst come back under stated ones.
- **The event table** (`RetEntry.dfy`, `AbsoluteRingBuffer.dfy`, `EventPacket.dfy`,
  `EventTable.dfy`, `Replication.dfy`). Packets rebuild the list of ongoing communications and
  carry finished ones over once, in order; all of them arrive if and only if no more finish
  between two packets than the ring holds.
- **Clustering and calibration** (`Clusters.dfy`, `Constellation.dfy`,
  `CalibrationPoint.dfy`). The clusters of a histogram are characterised uniquely and lose no
  mass; repeated halving of a histogram drifts by less than one sample per bin.
- **Smaller round trips** (`Fft.dfy`, `Message.dfy`, `Manchester.dfy`, `ParamScanner.dfy`).

`Basics.dfy`, `Slots.dfy` and `Sums.dfy` hold shared types and arithmetic.

Some members are ghost steps of a proof, but everything that corresponds to an operation of the
toolkit is executable: I/O, clocks and foreign libraries appear as parameters. The correction
stage of the receiver (DC offset, noise level, threshold) is any deterministic function of a
persistent state; sine and cosine are any functions; the memory contents that a constructor
finds are a parameter.

## Where the code and its documentation differ

- `requestRead` is documented to grant what was asked for or less. It loads the head twice, so under
  concurrency it can grant more, and the documented reader then copies past the end of its buffer
  (`RingProtocol.OverrunMeansOvergranted`, `RingProtocol.OvergrantedNeverFinishes`; a run is given
  by `RingProtocol.GrantCanExceedAsked`). In every reachable state, a request that starts at a
  public position can end like that if and only if it asks for at least two samples, not all of
  them are public yet, and its end lies at least two slots behind the start of the ring
  (`RingOverruns.OverrunIffUnsafe`). Waiting until everything is public is therefore safe, and so
  are reads of the last samples. A reader that finishes has copied exactly what it asked for.
- `addSamples` promises the address of the first element it added. It returns the public head,
  which is that address exactly when nothing was staged before
  (`RingBuffers.RingBuffer.AddSamples`); `RingBuffers.AddSamplesReturnsAnotherAddress` gives two
  calls of which the second returns another one. The position can also be overwritten by the same
  call, when more than one ring length is added (`RingBuffers.RingBuffer.WriteSamples`).
- The comment on `addData` says the sample count never exceeds its maximum. It may, for a while,
  when the maximum is lowered to half of the count or less. `Calibration.CalibrationPoint.AddData`
  says exactly when it does not, and `Calibration.CountExceedsMaximum` gives a run.
- `freqAtBin` and `binAtFreq` are not inverses for every transform: `Fft.BinRoundTrip` gives the
  exact condition for a bin, `Fft.EveryBinComesBackIff` the one for a transform, and
  `Fft.BoundIsTight` a transform that loses a bin.
- A sub-burst ends with its last sample above the threshold left out: of the twenty samples that
  are trimmed nineteen are quiet, because the twentieth quiet one has not been copied yet
  (`Activity.LongSubs`, and `PulseTrains.MeasuredLengths` for the effect on lengths).
- `sincosf` is called with its two result pointers swapped, so the in-phase part of an emitted
  sample carries the sine (`Synthesis.Point`).
- The table of `Constellation::addPoint` grows one position too late: there is room for every
  position but the one just behind it (`Constellations.RoomExceptJustBehind`), which is position
  1000 in the table a constellation starts with (`Constellations.FirstTableHasNoRoom`).
- What the on-off modulation sends does not always come back. A burst of at most ten pulses goes to
  the phase-shift demodulator, which is always sure of itself, and a length that does not occur, or
  hardly occurs, is not learned: `Link.OddBurstComesBack` gives the exact condition
  `Link.ComesBack`, `Link.OneBitGoesToPsk` and `Link.EqualBitsAreLost` messages that fail it.
- An empty parameter list is refused by the parameter scanner
  (`ParamScanner.EmptyListIsRefused`).

## Model

| member | source | states |
|---|---|---|
| RingBuffers.ChunkStopsAtWrap | common/ringbuffer.h:114-124 | a chunk falls short only at the end of the ring, and a restart after it is never cut again |
| RingBuffers.RingBuffer.constructor | common/ringbuffer.h:134-138 | an empty ring stands for the empty stream |
| RingBuffers.RingBuffer.RequestRead | common/ringbuffer.h:291-304 | succeeds exactly for public positions, and grants the longest contiguous run of slots below the head, holding the stream at that position |
| RingBuffers.RingBuffer.ReadSamples | common/ringbuffer.h:72-90 | the documented reader gets exactly the stream's samples of its range, in at most two chunks |
| RingBuffers.RingBuffer.RequestReadLastN | common/ringbuffer.h:236-264 | grants a chunk of the last n samples that starts n before the head, or nothing when there are fewer |
| RingBuffers.RingBuffer.ReadLastN | common/ringbuffer.h:209-264 | with one restart, the last n samples in order |
| RingBuffers.RingBuffer.RequestWrite | common/ringbuffer.h:328-352 | the granted slots hold no surviving position, the tail is one ring length behind the staged head, the public head moves only where the tail pushes it, every public position at or above the new tail stays public with its sample, and exactly the markers below the tail are gone |
| RingBuffers.RingBuffer.Reserve | common/ringbuffer.h:336-347 | tail and head are those of a ring that holds the last L staged positions, and the markers follow the tail |
| RingBuffers.RingBuffer.EvictMarkers | common/ringbuffer.h:343-346 | removes exactly the markers below the new tail, as a restriction of the map |
| RingBuffers.RingBuffer.GrantedSlotsHoldTheirPositions | common/ringbuffer.h:328-352 | granted slots alias no position that survives the grant |
| RingBuffers.RingBuffer.Fill | common/ringbuffer.h:399 | filling the granted slots rewrites the end of the stream and nothing else |
| RingBuffers.RingBuffer.ValidateWrite | common/ringbuffer.h:366-369 | everything staged becomes public |
| RingBuffers.RingBuffer.AddSamples | common/ringbuffer.h:390-407 | ends for any length, appends exactly the samples to the stream, leaves tail and public head exactly where the ring length puts them, keeps every public sample and every marker at or above the tail, and returns the public head, which is the first position it appends exactly when nothing was staged |
| RingBuffers.RingBuffer.AddMarker | common/ringbuffer.h:426-450 | accepted exactly in the staging area, and then a map update at that position |
| RingBuffers.RingBuffer.InsertMarker | common/ringbuffer.h:433-445 | the backward walk computes the specified insertion |
| RingBuffers.RingBuffer.GetMarker | common/ringbuffer.h:463-479 | lookup in the map of retained markers |
| RingBuffers.RingBuffer.FindMarker | common/ringbuffer.h:493-515 | the marker with the greatest retained position not behind the given one, exactly when the position is public and there is one |
| RingBuffers.RingBuffer.WriteSamples | common/ringbuffer.h:44-66 | the documented writer: data and marker become public together and the last L samples are public; with nothing staged the marker is accepted exactly for 1 to L samples |
| RingBuffers.AddSamplesReturnsAnotherAddress | common/ringbuffer.h:386-407 | two calls without publishing: the second returns 0 although its first sample is at 1 |
| Markers.InsertIsMapUpdate | common/ringbuffer.h:435-445 | inserting is map update although duplicates may stay in the list |
| Markers.InsertWellFormed | common/ringbuffer.h:435-445 | the list stays sorted and equal positions keep carrying equal markers |
| Markers.DropIsMapRestriction | common/ringbuffer.h:343-346 | dropping the front of the list is a restriction of the map |
| Markers.EqualPositionsEqualMarkers | common/ringbuffer.h:463-479 | duplicates carry the same marker, so any search finds the same |
| Slots.DistinctSlots | common/ringbuffer.h:118-122 | two positions less than one ring length apart never share a slot |
| RingProtocol.ReadSafety | common/ringbuffer.h:72-90 | in every interleaving, for readers of given positions and of the last samples, a true final check means that exactly the samples asked for were copied and every one is the producer's sample for its position |
| RingProtocol.FailedCheckMeansOverwritten | common/ringbuffer.h:159-162 | a false final check means that the producer has given the first position up |
| RingProtocol.PublicWindowHoldsStream | common/ringbuffer.h:328-369 | in every reachable state tail <= head <= newHead <= tail + L, and every public slot holds the stream |
| RingProtocol.ProducerKeepsInv | common/ringbuffer.h:328-352 | every single store of the producer keeps the invariant and never moves tail or head back |
| RingProtocol.StepKeepsReader | common/ringbuffer.h:236-304 | every single load or copy of a reader keeps what the reader relies on, the loads of the last positions and of the size included |
| RingProtocol.WriteSlotKeepsInv | common/ringbuffer.h:336-349 | the tail has moved before any slot behind it is overwritten |
| RingProtocol.RunInv | common/ringbuffer.h:291-369 | the protocol invariant holds in every reachable state |
| RingProtocol.NobodyBlocks | common/ringbuffer.h:236-369 | in every reachable state the producer can take a step, and so can every reader that is not about to leave its buffer |
| RingProtocol.GrantExceedsAskedExactly | common/ringbuffer.h:298-300 | the single step in which a grant becomes too large: it does exactly when the head has moved past the request between the two loads and the ring does not wrap |
| RingProtocol.UnclippedGrantIsAtMostAsked | common/ringbuffer.h:298-302 | without the second load a grant is at most what was asked for |
| RingProtocol.GrantCanExceedAsked | common/ringbuffer.h:298-300 | a run of the protocol in which two samples are asked for, three are granted, and the reader is about to copy past the end of its buffer |
| RingProtocol.OverrunMeansOvergranted | common/ringbuffer.h:72-90 | in every reachable state, a reader that is about to copy past its buffer was granted more than it asked for |
| RingProtocol.OvergrantedNeverFinishes | common/ringbuffer.h:72-90 | a reader that was granted too much never finishes: after any further run it is copying that grant or about to leave its buffer, which it is as soon as the buffer is full |
| RingOverruns.OverrunIffUnsafe | common/ringbuffer.h:72-90 | in every reachable state, a request of a public position can lead the reader out of its buffer if and only if it asks for two samples or more, does not end at the public head or before, and ends at least two slots behind the start of the ring |
| RingOverruns.SafeReadNeverOverruns | common/ringbuffer.h:291-304 | otherwise no continuation of the run leads it out of its buffer |
| RingOverruns.UnsafeReadCanOverrun | common/ringbuffer.h:291-352 | from every reachable state, whatever the producer is in the middle of, a run that does |
| RingOverruns.LastReadNeverOverruns | common/ringbuffer.h:236-264 | a reader of the last samples never leaves its buffer |
| RingProgress.CountersAreExact | common/ringbuffer.h:328-369 | in every reachable state the tail is exactly as far as the ring is short of room for the samples staged or being staged, and the head is the position published last or pushed by the tail |
| RingProgress.IdleCounters | common/ringbuffer.h:328-369 | between two packets the tail is one ring length behind the staged head, and the public head is the position published last, or the tail |
| RingProgress.ReadersAreWaitFree | common/ringbuffer.h:236-304 | in every interleaving a request for n samples is over after at most 5 n + 5 steps of its reader |
| RingProgress.PublicReadSucceeds | common/ringbuffer.h:291-304 | a request for public samples is never refused: unless the first one is overwritten, a reader that has finished has got exactly them, with a true check |
| RingProgress.LastReadSucceeds | common/ringbuffer.h:236-264 | a request for the last samples delivers samples that end at the head it found or behind it, under the same condition |
| Reception.Run | hachoir_uhd/utils/rxtimedomain.cpp:111-195 | after every stream exactly the last sub-burst is open in RX and none in COALESCING; closed ones are ordered, at least 19 long and at least 21 apart |
| Reception.ChainIsOrdered | hachoir_uhd/utils/burst.cpp:68-80 | the last sub-burst never ends before the first starts, so the zero-length branch is never taken |
| Reception.CoalescingIsHundredth | hachoir_uhd/utils/rxtimedomain.cpp:43-47 | the number of quiet samples that end a burst is a hundredth of the sample rate, without its fraction |
| Activity.AutomatonSimulatesGroups | hachoir_uhd/utils/rxtimedomain.cpp:111-195 | after every stream the automaton agrees with the grouping of the samples above the threshold |
| Activity.FinishedAreExpiredGroups | hachoir_uhd/utils/rxtimedomain.cpp:155-193 | the bursts handed over are exactly the expired groups with a long activity, with all long activities as sub-bursts |
| Activity.BurstsHoldTheirSamples | hachoir_uhd/utils/rxtimedomain.cpp:111-207 | a burst that is handed over holds exactly the samples of the stream from its start to the end of its last sub-burst, and its length is counted between its first and last sub-burst |
| Groupings.GroupsAreAGrouping | hachoir_uhd/utils/rxtimedomain.cpp:111-195 | the groups cover every sample above the threshold; an activity is never quiet for longer than twenty samples, the next one of a burst comes before the deadline, and the next burst behind it |
| Groupings.GroupingIsUnique | hachoir_uhd/utils/rxtimedomain.cpp:111-195 | no other groups of activities meet that description of the stream |
| Groupings.ReceiverReportsTheGrouping | hachoir_uhd/utils/rxtimedomain.cpp:155-193 | the bursts handed over are the groups, by description, whose deadline has passed, each with its long activities |
| Bursts.Burst.BumpBufferSize | hachoir_uhd/utils/burst.cpp:14-33 | makes room and keeps every sample |
| Bursts.Burst.Append | hachoir_uhd/utils/burst.cpp:56-66 | appends exactly the given samples |
| Bursts.Burst.Start | hachoir_uhd/utils/burst.cpp:41-54 | an empty burst with one open sub-burst at offset zero |
| Bursts.Burst.SubStop | hachoir_uhd/utils/burst.cpp:116-128 | closes the last sub-burst without the trimmed samples, for any trim: the unsigned differences wrap around, and a degenerate sub-burst is removed exactly when it ends at zero |
| TimeDomain.RxTimeDomain.ProcessSamples | hachoir_uhd/utils/rxtimedomain.cpp:58-207 | consumes a block: fields, burst buffer and delivered bursts are those of the automaton on the whole corrected stream, and the buffer is the slice of the stream from the burst's first sample on |
| TimeDomain.RxTimeDomain.OnStart | hachoir_uhd/utils/rxtimedomain.cpp:111-131 | the first half of the work on a sample refines the automaton |
| TimeDomain.RxTimeDomain.OnEnd | hachoir_uhd/utils/rxtimedomain.cpp:133-195 | the second half refines the automaton |
| TimeDomain.RxTimeDomain.EndSub | hachoir_uhd/utils/rxtimedomain.cpp:142-154 | at the end of an activity trimming never underflows or cancels, and cancelling never meets a finished sub-burst |
| TimeDomain.RxTimeDomain.Deliver | hachoir_uhd/utils/rxtimedomain.cpp:159-183 | the delivered burst has its sub-bursts, its length, and every sample under them |
| TimeDomain.RxTimeDomain.CopyOut | hachoir_uhd/utils/rxtimedomain.cpp:199-204 | the burst buffer grows by exactly the samples of the block that it lacks |
| TimeDomain.BlocksDoNotMatter | hachoir_uhd/utils/rxtimedomain.cpp:58-207 | receivers that have consumed the same stream in different blocks have delivered the same bursts: the expired groups of the stream |
| Synthesis.ChunkIndependence | hachoir_uhd/modulations/modulation.cpp:88-155 | for every program, asking for a and then for b samples gives the samples and the state that asking for a + b gives |
| Waveform.RunBody | hachoir_uhd/modulations/modulation.cpp:88-155 | the commands of symbols, anywhere in a program, sound as the waveform of the symbols |
| Waveform.WaveLength | hachoir_uhd/modulations/modulation.cpp:123-128 | the length of a waveform is the sum of the truncated symbol lengths |
| Synthesis.SymbolLasts | hachoir_uhd/modulations/modulation.cpp:123-128 | a symbol sounds its time in microseconds times the sample rate, divided by a million, without the fraction |
| Synthesis.PointIsOnTheCarrier | hachoir_uhd/modulations/modulation.cpp:165-174 | a sample is the amplitude times the sine in phase and times the cosine in quadrature, each cut toward zero |
| Waveform.TotalInTime | hachoir_uhd/modulations/modulation.cpp:123-128 | symbols sound their time at the sample rate, less a fraction of a sample for each |
| Waveform.PhaseIsShifted | hachoir_uhd/modulations/modulation.cpp:107-110 | a phase difference moves the phase of every later sample by itself |
| Waveform.CarrierRunsOn | hachoir_uhd/modulations/modulation.cpp:157-186 | symbols that only set the amplitude key one carrier whose phase runs on through silence |
| Waveform.PhaseIsContinuous | hachoir_uhd/modulations/modulation.cpp:157-186 | for any symbols, sample k is a point at the amplitude of its symbol and at a phase that every sample moves on by the step of its own tone |
| Program.RunCopies | hachoir_uhd/modulations/modulation.cpp:129-138 | from the r-th repetition on, the program emits the remaining copies |
| Program.CompiledEmitsCopies | hachoir_uhd/modulations/modulation.cpp:67-155 | a compiled message emits R + 1 identical copies of its waveform and stops, whatever the oscillator held before |
| Program.EmitsFromEnd | hachoir_uhd/modulations/modulation.cpp:88-155 | a run that ends by itself determines every shorter run |
| Program.EmitsRest | hachoir_uhd/modulations/modulation.cpp:140-153 | after a chunk exactly the rest is left to emit |
| Program.CopiesAt | hachoir_uhd/modulations/modulation.cpp:129-135 | every copy is the same waveform, sample by sample |
| Program.CopiesLength | hachoir_uhd/modulations/modulation.cpp:129-135 | c copies are c times as long |
| Modulations.PreparedMessageEmitsItsSound | hachoir_uhd/modulations/modulationOOK.cpp:44-76 | a prepared message emits its sound, of R + 1 times the total of its symbol lengths, and stops |
| Modulations.MessageLasts | hachoir_uhd/modulations/modulationOOK.cpp:44-76 | a prepared message is R + 1 times as long as one pass, which lasts its on and off times (or its bit times) in whole microseconds and its stop symbol, at the sample rate, less a fraction of a sample for each symbol |
| Modulations.MessageRestarts | hachoir_uhd/modulations/modulationFSK.cpp:44-79 | every pass over a message sounds the same, although one register is left to the first symbol |
| Modulations.OokKeysOneCarrier | hachoir_uhd/modulations/modulationOOK.cpp:56-71 | sample k of a keyed message is the carrier at phase 2 pi k (carrier - frequency) / rate, at the amplitude of the pulse that contains it |
| FskTones.FskKeysTones | hachoir_uhd/modulations/modulationFSK.cpp:44-79 | sample k of a message is a point at the phase that the tones of its bits have reached, without a jump where the tone changes, and the stop symbol is silent |
| Modulations.Modulation.PrepareOok | hachoir_uhd/modulations/modulationOOK.cpp:44-76 | the program is the header, the pulses in turns, the stop symbol and the ending, ready to start |
| Modulations.Modulation.PrepareFsk | hachoir_uhd/modulations/modulationFSK.cpp:44-79 | the program of the tones, or a given-up header for several bits per symbol |
| Modulations.Modulation.PrepareMessage | hachoir_uhd/modulations/modulationOOK.cpp:44-76 | accepted exactly for sendable messages, and then the object emits the message's sound, whatever it did before |
| Modulations.Modulation.GetNextSamples | hachoir_uhd/modulations/modulation.cpp:88-155 | refines the machine for every buffer length: buffer, state and returned length, and it ends |
| Modulations.Modulation.Advance | hachoir_uhd/modulations/modulation.cpp:92-154 | each turn keeps what is left to deliver and decreases the measure across repetitions and empty symbols |
| Modulations.Modulation.Execute | hachoir_uhd/modulations/modulation.cpp:96-139 | one command of the machine |
| Modulations.Modulation.Sound | hachoir_uhd/modulations/modulation.cpp:140-153 | generates as much of the current symbol as fits, from where it was left |
| Modulations.Modulation.Modulate | hachoir_uhd/modulations/modulation.cpp:157-186 | fills the buffer with a tone in closed form and leaves the phase behind it |
| Emission.StepFollowsSchedule | hachoir_uhd/utils/emissionruntime.cpp:124-154 | a call delivers the first event of the schedule and leaves the others; an idle transmitter delivers silence |
| Emission.CallsFollowSchedule | hachoir_uhd/utils/emissionruntime.cpp:124-154 | over any run of calls: first the schedule, message by message, then silence |
| Emission.SessionFollowsSchedule | hachoir_uhd/utils/emissionruntime.cpp:124-154 | over any interleaving of arrivals and calls, for any queue limit: what was played, with what is still to come, is the schedule of the accepted messages in the order they were accepted, and idle calls are silent |
| Emission.ArrivalGoesLast | hachoir_uhd/utils/messageheap.cpp:24-31 | a message that is added is served after all that wait |
| Emission.BlockCount | hachoir_uhd/utils/emissionruntime.cpp:147-151 | a message of n samples takes n / B + 1 blocks |
| Emission.BlocksAreTheMessage | hachoir_uhd/utils/emissionruntime.cpp:128-151 | its blocks are its samples followed by silence, nothing lost, repeated or mixed |
| Emission.RetunedIsAccepted | hachoir_uhd/utils/emissionruntime.cpp:136-141 | a radio that was retuned for a message is accepted, so it is retuned at most once |
| Emission.AcceptedIffCovered | hachoir_uhd/modulations/modulation.cpp:80-86 | a message is accepted if and only if every frequency within ten kilohertz of its own lies in the band of the radio |
| Emission.PlayedInItsBand | hachoir_uhd/utils/emissionruntime.cpp:130-141 | whatever the radio was tuned to, a message is played with its channel in the band; the radio is left alone when it was already, and otherwise tuned to the frequency of the message |
| EmissionRuntimes.EmissionRuntime.AddMessage | hachoir_uhd/utils/messageheap.cpp:24-42 | a message that is accepted waits behind the others, and nothing else changes; one slot always stays free |
| EmissionRuntimes.EmissionRuntime.NextBlock | hachoir_uhd/utils/emissionruntime.cpp:124-154 | the buffer, the command and the radio parameters are those of one step of the schedule; it asks to retune exactly when nothing is in progress and the channel of the first waiting message is not in the band, and then to the frequency of that message |
| EmissionRuntimes.EmissionRuntime.StartMessage | hachoir_uhd/utils/emissionruntime.cpp:130-136 | the first message leaves the queue and its sound is in progress |
| EmissionRuntimes.EmissionRuntime.PlayOn | hachoir_uhd/utils/emissionruntime.cpp:147-151 | the buffer is the next block of the message, padded with silence, and the message is over when it falls short |
| EmissionRuntimes.PlaysNext | hachoir_uhd/utils/emissionruntime.cpp:147-151 | one buffer takes exactly that much of what is left to play |
| EmissionRuntimes.GivenUpPlaysNothing | hachoir_uhd/modulations/modulation.cpp:93-95 | a program that was given up half compiled plays nothing |
| OokDemod.JitterIsCorrected | hachoir_uhd/demodulations/ook.cpp:57-76 | a length is read as a bit if and only if it is off by less than half the spacing of its pair |
| OokDemod.OddMessageRoundTrip | hachoir_uhd/demodulations/ook.cpp:142-174 | a message of odd length comes back exactly, as one message, if and only if every length is within the jitter bound |
| OokDemod.ExactlyTheBits | hachoir_uhd/demodulations/ook.cpp:142-174 | for any channels, exactly some bits come back as one message if and only if every length is read as its bit |
| OokDemod.EvenMessageRoundTrip | hachoir_uhd/demodulations/ook.cpp:142-174 | a message of even length comes back exactly if and only if its stop pulse looks like neither length; otherwise it has one more bit |
| OokDemod.DecodeKeepsBits | hachoir_uhd/demodulations/ook.cpp:142-172 | every recognised bit is in exactly one message, in order, and no message is empty |
| OokDemod.UnknownSplits | hachoir_uhd/demodulations/ook.cpp:143-162 | an unknown length ends a message and decoding starts afresh behind it |
| OokDemod.NothingUnknownNothingSplit | hachoir_uhd/demodulations/ook.cpp:142-172 | without unknown lengths there is one message |
| OokDemod.GapsOfChain | hachoir_uhd/demodulations/ook.cpp:87-101 | a received burst has one gap fewer than pulses, so demodulation never runs out of gaps |
| OokDemodulator.Ook.SplitLengths | hachoir_uhd/demodulations/ook.cpp:83-101 | the pulse lengths and the gaps of a burst, nothing of the burst before, and both counted in their constellations |
| OokDemodulator.Ook.GetBPS | hachoir_uhd/demodulations/ook.cpp:11-55 | the two most probable points, and the trust in them by their shares and their ratio |
| OokDemodulator.Ook.Rank | hachoir_uhd/utils/constellation.cpp:141-148 | the clusters of the counted lengths, the most probable first |
| OokDemodulator.Ook.Likeliness | hachoir_uhd/demodulations/ook.cpp:78-118 | both channels hold what can be learned from the burst, and the score is that of what they hold and of the number of pulses |
| OokDemodulator.Fittest | hachoir_uhd/utils/rxtimedomain.cpp:262-271 | the first demodulator with the best score |
| OokDemodulator.ProcessBurst | hachoir_uhd/utils/rxtimedomain.cpp:241-293 | every burst is demodulated: by on-off keying with what it has learned from the burst when it is sure of itself, and otherwise by the phase-shift demodulator |
| OokLearning.TwoClustersAreSingle | hachoir_uhd/utils/constellation.cpp:100-139 | of two kept lengths two clusters are the lengths themselves, with their shares |
| OokLearning.TwoClusters | hachoir_uhd/utils/constellation.cpp:100-139 | two kept lengths that are far enough apart are in two clusters |
| OokLearning.BpsOfLengths | hachoir_uhd/demodulations/ook.cpp:36-46 | the trust in two lengths, in whole numbers: their counts and their ratio |
| OokLearning.TaughtIff | hachoir_uhd/demodulations/ook.cpp:11-118 | from lengths of which only two occur, both are learned if and only if both occur, the rarer one is at least a tenth and the ratio at least 1.5, or at least a hundredth and the ratio between 1.8 and 2.2 |
| OokLearning.TaughtAmongThree | hachoir_uhd/demodulations/ook.cpp:11-118 | a third length that is rarer and far enough from both leaves them learned, by exactly the tests on their shares |
| OokDemodulator.Ook.MapSymbol | hachoir_uhd/demodulations/ook.cpp:57-76 | appends the classified bit, and fails exactly on unknown lengths |
| OokDemodulator.Ook.DecodeSymbol | hachoir_uhd/demodulations/ook.cpp:143-162 | one length advances the decoding of the lengths so far |
| OokDemodulator.Ook.Demod | hachoir_uhd/demodulations/ook.cpp:142-174 | the messages of a burst are those of decoding its pulses and gaps in turns |
| OneSided.CarriedIff | hachoir_uhd/demodulations/ook.cpp:142-174 | symbols that carry bits in turns with others that carry none decode to the bits, parted at the unknown ones, if and only if every one of the first kind is its bit |
| OneSided.PulsesCarryBits | hachoir_uhd/demodulations/ook.cpp:57-174 | when only the pulses are told apart, the messages are the bits of the pulses, parted at exactly the gaps longer than one and a half times the end of the most probable gaps, if and only if every pulse is within the jitter bound |
| OneSided.GapsCarryBits | hachoir_uhd/demodulations/ook.cpp:57-174 | the same for gaps that carry the bits between pulses that do not |
| OneSided.OneIsKnown | hachoir_uhd/demodulations/ook.cpp:11-118 | from a length and a rarer one more than half longer, which are not both learned, the end of the most probable lengths is that of the frequent one |
| OneSided.PulseKeyedComesBack | hachoir_uhd/demodulations/ook.cpp:11-174 | a burst whose pulses carry the bits comes back as its messages, which end at the long gaps, if and only if it has more than ten pulses and they teach their two lengths |
| OneSided.GapKeyedComesBack | hachoir_uhd/demodulations/ook.cpp:11-174 | the same for a burst whose gaps carry the bits, with messages that end at the long pulses |
| PulseTrains.TrainIsOneGroup | hachoir_uhd/utils/rxtimedomain.cpp:111-195 | behind bursts that are over, pulses with gaps of more than twenty samples that do not end a burst are the activities of one more burst |
| PulseTrains.TrainIsReported | hachoir_uhd/utils/rxtimedomain.cpp:155-193 | such a train is handed over as one burst exactly when enough silence has followed |
| PulseTrains.ShortPulseIsDropped | hachoir_uhd/utils/rxtimedomain.cpp:142-152 | a pulse of less than twenty samples at the end of a train does not become a sub-burst |
| PulseTrains.CopiesAreReported | hachoir_uhd/utils/rxtimedomain.cpp:155-193 | a train that is sent over and over, with a gap that ends a burst, is handed over once for every copy |
| PulseTrains.MeasuredLengths | hachoir_uhd/utils/burst.cpp:116-128 | pulses are measured one sample short and gaps one sample long |
| PulseTrains.TrainIsDecoded | hachoir_uhd/demodulations/ook.cpp:142-174 | the burst reported for a train is demodulated from its lengths, pulses one short and gaps one long |
| PulseTrains.CopiesDecoded | hachoir_uhd/demodulations/ook.cpp:142-172 | a gap between copies parts them into messages when it is unknown, and joins them into one when it looks like a bit |
| KeyedSounds.SymbolsKeyTheStream | hachoir_uhd/modulations/modulationOOK.cpp:56-71 | a keyed message, heard through a threshold, is a train of pulses and gaps with the symbols' sample counts |
| KeyedSounds.WaveIsKeyed | hachoir_uhd/modulations/modulationOOK.cpp:44-76 | the waveform of a message is above the threshold exactly during its pulses |
| KeyedSounds.PulseLasts | hachoir_uhd/modulations/modulationOOK.cpp:56-68 | a pulse or gap lasts the time of its bit at the sample rate, less a fraction of a microsecond and of a sample |
| KeyedSounds.SoundIsKeyed | hachoir_uhd/modulations/modulation.cpp:129-135 | the sound of a message keys its lengths over and over, once for every copy |
| KeyedSounds.Played | hachoir_uhd/modulations/modulation.cpp:67-155 | the compiled program, asked for enough samples in any state of the oscillator, plays the message's sound |
| Link.MessageIsSeparable | hachoir_uhd/utils/rxtimedomain.cpp:141-156 | with pulse and gap times that suit the receiver's rate, the lengths of every message are separable |
| Link.ChannelReads | hachoir_uhd/demodulations/ook.cpp:11-76 | a channel reads all the bits it was sent if and only if they teach their two lengths, the shorter one as zero |
| Link.OddBurstComesBack | hachoir_uhd/demodulations/ook.cpp:78-175 | for the burst of a message of odd length, whatever was learned from it: on-off keying takes it and returns exactly the message if and only if there are more than ten pulses and both its pulses and its gaps teach their lengths |
| Link.EqualBitsAreLost | hachoir_uhd/demodulations/ook.cpp:34-46 | a message of equal bits never comes back |
| Link.EveryCopyIsABurst | hachoir_uhd/utils/rxtimedomain.cpp:241-293 | bits to bits: compiled with R repetitions, played, heard after any silence and detected, a message of odd length whose stop gap ends a burst gives R + 1 bursts, measured one sample off, each returned as the message exactly when the message comes back |
| Link.ShortMessagesGoToPsk | hachoir_uhd/utils/rxtimedomain.cpp:262-271 | the bursts of a message of less than twenty bits are never demodulated as on-off keying |
| Link.OneBitGoesToPsk | hachoir_uhd/utils/rxtimedomain.cpp:262-271 | a single bit is not returned |
| Link.CopiesAreOneBurst | hachoir_uhd/utils/rxtimedomain.cpp:155-193 | when the stop gap does not end a burst, there is one burst for all copies, exactly from the moment enough silence has followed |
| Link.CopiesShareABurst | hachoir_uhd/demodulations/ook.cpp:142-174 | when its bits are read, that burst comes back as R + 1 messages if the stop gap looks like neither gap, and as one joint message if it looks like a bit; without repetition it is returned exactly when the message comes back |
| Link.MessageIsReceived | hachoir_uhd/utils/rxtimedomain.cpp:58-207 | the bursts of the copies for a receiver object at the same sample rate, whatever blocks the stream came in |
| Link.TwoHaveRoom | hachoir_uhd/utils/constellation.cpp:80-83 | two lengths of which one fits the first table, and neither is just behind it, always have room |
| Link.MillisecondsComeBackIff | hachoir_uhd/utils/rxtimedomain.cpp:21-47 | at one sample per microsecond, where 10000 quiet samples end the coalescing, with half and whole milliseconds and a stop symbol of 10020 microseconds: every copy of an odd message comes back over an ideal link if and only if it has more than twenty bits and, among its pulses and among its gaps, neither bit is rarer than one in a hundred |
| Repetitions.SharedBurstComesBack | hachoir_uhd/demodulations/ook.cpp:78-175 | copies in one burst, whatever was learned from it: returned, parted or joined by their stop gap, when their bits teach the lengths despite the stop gaps |
| Repetitions.EvenCopiesShareABurst | hachoir_uhd/utils/rxtimedomain.cpp:111-195 | copies of a message of even length are one burst, in which every stop pulse merges with the first pulse of the next copy, and what their bits are decoded to is known by how the merged and the last pulse are read |
| Repetitions.EvenBurstComesBack | hachoir_uhd/demodulations/ook.cpp:78-175 | a single copy of a message of even length, whatever was learned from it: returned, with one bit more if the stop pulse looks like one, when the bits teach the lengths despite the stop pulse |
| Repetitions.EvenWithoutStop | hachoir_uhd/utils/rxtimedomain.cpp:142-152 | without a stop pulse that is kept a message of even length is received as the message without its last bit |
| RetEntries.ConstructorDeterminesAddress | common/ret_entry.cpp:5-13 | every field is determined by the constructor's arguments, whatever the memory held: the user in the top byte, the low 56 bits of the address below it, and the others as given |
| RetEntries.SettersAreIndependent | common/ret_entry.cpp:100-109 | setting the user keeps the address and the other way round |
| RetEntries.ValueOfBytes | common/message_utils.h:5-19 | reading back a written integer of a fixed width gives the integer |
| RetEntries.BytesOfValue | common/message_utils.h:5-19 | writing a read integer gives the bytes back, and it fits its width |
| RetEntries.EntryRoundTrip | common/ret_entry.cpp:15-52 | an entry survives its 41-byte encoding, but for the dirty flag, which is set |
| RetEntries.EntryLayout | common/ret_entry.cpp:35-52 | where every byte of every field stands in the 41 bytes, the lowest byte first |
| RetEntries.EntryBytesOfParsed | common/ret_entry.cpp:15-52 | every 41 bytes are the encoding of what they parse to |
| RetEntries.ParseEntry | common/ret_entry.cpp:15-33 | fails exactly on less than 41 bytes; what is parsed is dirty |
| RetEntries.WriteAndUpdateOffset | common/message_utils.h:13-19 | stores the bytes at the offset, moves it behind them, and keeps everything else |
| RetEntries.EntryToString | common/ret_entry.cpp:35-52 | writes the encoding in place and nothing else, or nothing at all when there is no room |
| AbsoluteRing.AbsoluteRingBuffer.PushBack | common/absoluteringbuffer.h:37-59 | appends to the log at the returned position and evicts at most the oldest element |
| AbsoluteRing.AbsoluteRingBuffer.At | common/absoluteringbuffer.h:86-100 | the element at an available position, and nothing elsewhere |
| AbsoluteRing.AbsoluteRingBuffer.Update | common/absoluteringbuffer.h:86-100 | an element changed through its pointer changes at its position only |
| AbsoluteRing.AbsoluteRingBuffer.GetRange | common/absoluteringbuffer.h:61-84 | the elements of the window, moved forward to the first available one and cut at the head |
| EventPacket.ParseOfSerialize | common/radioeventtable.cpp:224-251 | parsing a packet gives back its entries, kind by kind and in order |
| EventPacket.ParseOfItems | common/radioeventtable.cpp:224-251 | whatever stands in a packet, entries of kinds below zero and bytes above the end mark included, exactly the known entries in front of its end arrive; an end mark hides what follows, and an entry that is cut short is the only failure |
| EventPacket.PacketTransfers | common/radioeventtable.cpp:184-251 | a packet rebuilds the ongoing communications that were seen more than once and carries the finished ones over |
| EventTable.RadioEventTable.Finish | common/radioeventtable.cpp:135-155 | a finished communication is pushed dirty |
| EventTable.RadioEventTable.AddRecord | common/radioeventtable.cpp:175-182 | appends a kind and an encoded entry behind the packet so far |
| EventTable.RadioEventTable.ToString | common/radioeventtable.cpp:184-222 | the packet holds the ongoing communications and exactly the retained finished ones that no packet has covered yet, which are then clean |
| EventTable.RadioEventTable.UpdateFromString | common/radioeventtable.cpp:224-251 | on any bytes: the ongoing list is replaced, finished entries are added, and it fails exactly on a cut entry, keeping what came before |
| EventTable.RadioEventTable.ReadRecord | common/radioeventtable.cpp:232-248 | each turn consumes at least one byte and keeps the meaning of the packet |
| EventTable.Transfer | common/radioeventtable.cpp:184-251 | write and read: the viewer sees the visible ongoing list and gets the unsent finished entries |
| EventTable.FinishStep | common/radioeventtable.cpp:135-155 | a communication that ends is the protocol's push |
| EventTable.PacketStep | common/radioeventtable.cpp:184-251 | a transfer is the protocol's packet: the viewer has exactly the entries the protocol says |
| EventTable.Replicate | common/radioeventtable.cpp:135-251 | over any list of endings, changes and packets, the viewer's finished entries are exactly those the protocol says, and all that were covered when no more end between two packets than the ring holds |
| Replication.ReceivedInOrderWithoutDuplicates | common/radioeventtable.cpp:206-216 | over any run the viewer's finished entries are a strictly increasing selection of the pushed ones |
| Replication.EverythingReceivedIffNoBurst | common/radioeventtable.cpp:206-216 | everything covered has been received if and only if at most ringSize entries finished before each packet |
| Replication.OnlyEvictedEntriesAreLost | common/absoluteringbuffer.h:37-59 | an entry that is missing had been evicted when a packet came |
| Clusters.ClustersAreUnique | hachoir_uhd/utils/constellation.cpp:100-139 | the declarative description of clusters leaves no choice: a histogram has one list of them |
| Clusters.KeptBinsInExactlyOne | hachoir_uhd/utils/constellation.cpp:100-139 | every kept bin belongs to exactly one cluster |
| Clusters.CentreIsInside | hachoir_uhd/utils/constellation.cpp:123-125 | the centre of a cluster lies between its first and its last kept bin |
| Clusters.CentreBalances | hachoir_uhd/utils/constellation.cpp:115-126 | the centre of a cluster is where its kept points balance, and its probability is its share of all points |
| Clusters.KeptWithItsPoints | hachoir_uhd/utils/constellation.cpp:109-113 | a bin is kept, with all its points, if and only if its share is not below the given probability |
| Clusters.ClustersCarryTheKeptMass | hachoir_uhd/utils/constellation.cpp:115-138 | the clusters carry all the kept mass |
| Clusters.NothingIsLost | hachoir_uhd/utils/constellation.cpp:112-113 | kept and ignored mass make up the whole |
| Clusters.ScanEnd | hachoir_uhd/utils/constellation.cpp:122-129 | one more ignored bin would make the gap too wide, and the cluster that ends there is one |
| Constellations.Constellation.CreateClusters | hachoir_uhd/utils/constellation.cpp:100-139 | the loop adds exactly the clusters to the list: maximal runs of kept bins with inner gaps of at most D, more than D apart, each kept bin in exactly one of them, with its centre and probability |
| Constellations.GapInNumbers | hachoir_uhd/utils/constellation.cpp:102-104 | the gap that is tolerated is the larger of the given fractions of the first position and of the range, without its own fraction |
| Constellations.Constellation.Clusterize | hachoir_uhd/utils/constellation.cpp:141-148 | the same clusters, with the most probable first |
| Constellations.Constellation.AddPoint | hachoir_uhd/utils/constellation.cpp:72-98 | counts the point at its position only, and keeps the bounds |
| Constellations.NoPointIsLost | hachoir_uhd/utils/constellation.cpp:72-139 | the clusters' masses and the ignored mass add up to the number of points |
| Constellations.RoomExceptJustBehind | hachoir_uhd/utils/constellation.cpp:80-83 | after growing there is room for every position except the one just behind the old table |
| Constellations.FirstTableHasNoRoom | hachoir_uhd/utils/constellation.cpp:80-83 | in the table a constellation starts with, position 1000 has no room |
| Calibration.SumOfHalved | gr-gtsrc/lib/calibrationpoint.cpp:103-105 | halving every bin loses one half for each odd bin |
| Calibration.HalvingKeepsDriftSmall | gr-gtsrc/lib/calibrationpoint.cpp:100-106 | the count stays between the total of the bins and 255 more |
| Calibration.BinOfPower | gr-gtsrc/lib/calibrationpoint.cpp:16-31 | a power is put in a bin if and only if it lies between the bin's value and the next one's, with everything outside in the first or last bin |
| Calibration.CalibrationPoint.AddData | gr-gtsrc/lib/calibrationpoint.cpp:91-112 | counts one sample in its bin, keeps the drift bounded, moves the last update to the count exactly when there was no halving, the minimum is reached and the count is at least ten times the last one, and the count is under the maximum afterwards exactly when it was under twice the maximum |
| Calibration.BinsFit | gr-gtsrc/lib/calibrationpoint.cpp:91-112 | every bin fits its 32 bits, even with one sample more |
| Calibration.CountExceedsMaximum | gr-gtsrc/lib/calibrationpoint.cpp:99-129 | a run after which the count is 5 under a maximum of 3 |
| Calibration.CalibrationPoint.Halve | gr-gtsrc/lib/calibrationpoint.cpp:103-105 | every bin is halved, in place |
| Calibration.CalibrationPoint.Reset | gr-gtsrc/lib/calibrationpoint.cpp:114-119 | all counters are zero |
| Fft.BinRoundTrip | gr-gtsrc/lib/fft.h:153-179 | a bin comes back from its frequency if and only if five times the remainder dropped by the first division is at most twice the sample rate |
| Fft.EveryBinComesBack | gr-gtsrc/lib/fft.h:153-179 | with 5 (fftSize - 1) <= 2 sampleRate every bin comes back |
| Fft.EveryBinComesBackIff | gr-gtsrc/lib/fft.h:153-179 | every bin of a transform comes back if and only if 5 (fftSize - gcd(fftSize, sampleRate)) <= 2 sampleRate |
| Fft.BoundIsTight | gr-gtsrc/lib/fft.h:153-179 | a transform of five bins at nine samples per second, just below the bound, takes a bin for another one |
| Fft.TenthsUnwrapped | gr-gtsrc/lib/fft.h:165-168 | nothing wraps around on the way, even for a band that starts below zero |
| Fft.BinFrequency | gr-gtsrc/lib/fft.h:153-157 | bin i stands for the frequency i / fftSize of the sample rate above the lower end of the band, half the rate below the centre, without the fraction |
| Fft.NearestBin | gr-gtsrc/lib/fft.h:165-179 | every frequency of the band is given to the bin it is next to: from four tenths of a bin below to less than six above |
| Messages.RechunkingIsLossless | hachoir_uhd/utils/message.cpp:98-118 | the digits of all symbols of a message are its bits, followed by less than one symbol of zeros, for every symbol width |
| Messages.ByteOfBytes | hachoir_uhd/utils/message.cpp:61-110 | byte i of a message made of bytes is byte i |
| Messages.Message.AddByte | hachoir_uhd/utils/message.cpp:61-65 | appends the digits of the byte, the highest first |
| Messages.DigitAt | hachoir_uhd/utils/message.cpp:61-65 | digit k of n is that bit of the number, counted from the highest |
| Messages.Message.AddBytes | hachoir_uhd/utils/message.cpp:73-77 | appends the digits of all bytes |
| Messages.Message.SymbolAt | hachoir_uhd/utils/message.cpp:98-110 | the number its bits spell, padded with zeros at the end of the message |
| Messages.Message.ToBuffer | hachoir_uhd/utils/message.cpp:140-152 | copies the whole bytes, or nothing when there is no room |
| Messages.Message.BytesRoundTrip | hachoir_uhd/utils/message.cpp:73-152 | what was added as bytes comes back, exactly when there is room |
| Manchester.DecodeOfEncode | hachoir_uhd/utils/manchester.cpp:3-20 | decoding inverts encoding, with or without an odd bit behind |
| Manchester.EncodeOfDecode | hachoir_uhd/utils/manchester.cpp:3-20 | whatever is decodable is the code of what it decodes to |
| Manchester.CodeOfBits | hachoir_uhd/utils/manchester.cpp:8-12 | a zero is 01 and a one is 10 |
| Manchester.Decode | hachoir_uhd/utils/manchester.cpp:3-20 | succeeds exactly on at least one pair with all pairs a code, appends the decoded bits, and empties the output when a pair is no code |
| ParamScanner.TurnAdvances | gr_modtool.py:2962-3068 | every turn consumes a character, or goes on from a name to its default value |
| ParamScanner.ScanParamList | gr_modtool.py:2962-3068 | the loop ends and refines the specified scan on every text |
| ParamScanner.ScanOfRender | gr_modtool.py:2962-3068 | scanning a rendered, non-empty list of declared parameters, anywhere in a file and with any runs of the six white-space characters between its words, around its names and after its commas, returns their types, names and defaults; constness and references are dropped |
| ParamScanner.ReadParam | gr_modtool.py:2999-3066 | one rendered parameter is read whole, whatever follows |
| ParamScanner.EmptyListIsRefused | gr_modtool.py:2986-2991 | an empty list raises an error |
| ParamScanner.MissingParamIsRefused | gr_modtool.py:2986-2991 | so is a closing parenthesis behind a comma, with any white space before it |
| ParamScanner.CommaInCallIsRefused | gr_modtool.py:3053-3059 | a comma inside the parentheses of a default value is an error |
| ParamScanner.ParenInNameIsRefused | gr_modtool.py:3027-3041 | a name with an open parenthesis is an error at the comma or the equals sign behind it |
| ParamScanner.UnfinishedListRunsOut | gr_modtool.py:2984-2986 | a file that ends behind a comma, or behind a parameter, runs out of characters |

## Left out

- Floating point: `float` and `double` are reals, so rounding is not modelled; a repeat count above 2^24, which a `float` cannot hold exactly, is one place where the code differs.
- Integer widths: 64-bit stream positions and counters are unbounded; widths are modelled in the event codec, the calibration counters and the bin arithmetic.
- RingBuffer::clear, and marker lists that are edited while another thread searches them: the first breaks the monotone tail, the second is outside the lock; markers are modelled between operations.
- RingBuffers.RingBuffer.RequestWrite: states the stream that the slots hold before the caller fills them as their old contents; a caller that publishes without filling publishes those.
- RingProtocol.ReadSafety: a reader that is about to copy past its buffer stops there, because what follows is not defined; the reader of gr-gtsrc/lib/fft.cpp, which does not advance its restart position, is not part of this model. The producer's own loads are folded into its steps, which is exact because nobody else stores; a copy is one slot at a time.
- Reception.Run: the DC and noise statistics are one deterministic front end with a persistent state; time stamps, average power and the return code of the burst callback are not part of this model, and the callback never refuses a burst.
- Bursts.Burst.BumpBufferSize: allocation always succeeds.
- Bursts.Burst.Append: allocation always succeeds.
- Bursts.Burst.Start: time stamps, the noise level and the radio parameters of a burst are not part of this model.
- TimeDomain.RxTimeDomain.ProcessSamples: the sample rate stays the same, while the original takes it from its radio parameters at every block, and a change between blocks would change the coalescing time in the middle of a burst. The burst callback never refuses a burst, which would drop the rest of the block; time stamps are not part of this model.
- TimeDomain.RxTimeDomain.Deliver: the burst callback never refuses a burst.
- Modulations.PreparedMessageEmitsItsSound: phase-shift keying is not part of this model: it sets no phase in its header, so its repetitions are not identical copies.
- Modulations.Modulation.PrepareOok: on and off symbols stand for one bit each.
- EmissionRuntimes.EmissionRuntime.NextBlock: the caller is expected to keep the radio parameters it was asked for; a caller that does not is asked again.
- OokDemodulator.Ook.Demod: the frequency estimate, the stop symbol and the modulation attached to each message, and the texts for the user are not part of this model.
- OokDemodulator.Ook.Likeliness: no length falls just behind the table of its constellation (1000 at first), where the original writes out of its table.
- OokDemodulator.ProcessBurst: of the phase-shift demodulator only its score is modelled, which is the same for every burst; what it makes of a burst is not.
- Repetitions.SharedBurstComesBack: the condition is sufficient; copies whose stop gap is measured close to one of the two gaps may come back as well.
- Repetitions.EvenBurstComesBack: the condition is sufficient; messages whose stop pulse is measured close to one of the two pulses may come back as well.
- Repetitions.EvenWithoutStop: states one pass; a stop pulse that is too short by itself is still merged with the first pulse of a next copy.
- Link.EveryCopyIsABurst: the receiver hears exactly the samples that are not silent above its threshold, in the timing of the transmitter, and no phase of the carrier sounds like silence at the given amplitude; noise, distortion and clock drift are not part of this model.
- Link.CopiesShareABurst: when a message is repeated, its stop gap is longer than twenty samples; a shorter one would merge the last pulse of a copy with the first of the next.
- RetEntries.EntryRoundTrip: entries are values, bytes are little-endian.
- EventTable.RadioEventTable.ToString: the buffer has room for the packet; the original doubles its buffer at most once per packet. Entries that are shared between lists by pointers are values.
- EventTable.Transfer: the buffer has room for the packet.
- EventTable.PacketStep: the buffer has room for the packet.
- EventTable.Replicate: the buffer has room for the ongoing communications and a full ring.
- EventTable.RadioEventTable.Finish: which communications end is decided by a loop that skips elements after it erases one; only the push itself is modelled.
- Constellations.Constellation.AddPoint: positions are not negative, and not the one just behind the table, where the original writes out of its table.
- Constellations.Constellation.CreateClusters: positions are not negative.
- Constellations.Constellation.Clusterize: the sort is any that puts the most probable cluster first; how it orders equally probable ones is left open.
- Calibration.CalibrationPoint.AddData: the statistics that are computed from the histogram on the way are not part of this model.
- Calibration.BinOfPower: powers whose bin number does not fit a 16-bit integer have no defined bin in the original, and go to the first or last bin here.
- Messages.Message.SymbolAt: the inclusive or of disjoint bits is an addition.
- ParamScanner.ScanOfRender: quotes are ordinary characters because the original never notices that a string begins; the texts of the errors are left out. A default value has no commas, and its parentheses balance; a comma inside them is refused (`CommaInCallIsRefused`). White space inside angle brackets belongs to the type.
- Sockets, user interfaces, radio drivers, GNU Radio blocks, Fourier transforms, phase and frequency estimation, simulations and the other commands of gr_modtool.py: input and output, foreign libraries, or numerical claims.
