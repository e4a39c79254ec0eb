# A verified model of netaudio-rs

netaudio-rs is a receive-only, Dante-compatible audio library. Packets of samples arrive over UDP with a
(seconds, index) timestamp, are put into a ring addressed by wrapping 64-bit sample positions, and are read
back at the pace of an overlay clock that is steered by PTP or by the packets themselves. Around that core a
control plane answers paged requests, announces itself over mDNS, and sets up flows with transmitters.

This project models the parts of the program that carry the reasoning and proves them correct in Dafny:

- **Clock** (`Overlay`, `ServoMeans`, `OverlayRuns`, `OverlayLock`, `Seqlock`, `Ptp`): the servo with its
  gates, frequency estimate, clamped slew and lock counter; what every step keeps, what whole runs can
  drift, how a master of constant skew is followed (every observation is used, an early lock may be lost
  again, and from a fixed observation on the lock stays); the sequence lock around the published snapshot,
  interleaved load by load and store by store; and which Sync and Follow_Up packets are paired.
- **Samples** (`Slots`, `Ring`, `RingRefinement`, `RingMap`, `MediaTime`, `Playout`, `Pcm`, `MediaPath`):
  the ring as a class over arrays, conservation, order and repetition of packets; exactly when the ring
  agrees with an unbounded map from positions to samples across the 2^64 wrap; the integer-division bounds
  that decide which packets are kept, how far a publish moves the read position back, the PCM conversions,
  and the whole path from a transmitter's samples to a listener's.
- **Wire formats** (`Bytes`, `Utf8`, `Buf`, `Names`, `NameTheorems`, `Mdns`, `MdnsTheorems`, `MdnsExact`,
  `ReqResp`, `ArcPages`, `ArcWalk`, `FlowRequest`): DNS messages with compression pointers, the control
  header, pages of receive channels with patched offsets and a client that walks them, and the flow request
  packet.
- **Subscribing** (`Subscriptions`, `Subscribe`, `SubscribeSafety`, `SubscribeEffects`): the locked regions
  as methods, and every interleaving of the control task, any number of establish tasks and the media
  thread.

Conventions: integer widths are written out (`Machine`); wrapping operations are conditionals that are
proved to be arithmetic modulo 2^64. Strings are sequences of UTF-8 bytes. `f64` is modelled by `real`, with
truncation toward zero where the code casts. Clock readings, network answers and socket results are
parameters or free choices of a step. A method that changes state is specified by a function of the old
state. The lemmas about that function are the results; the ones named `...Means`, `...Layout`, `...At` and
`...IsExact` say what it computes in plain arithmetic or by the positions of bytes, with the program's
numbers written out.

Where the design document and the code differ, the model follows the code:

- `docs/IMPLEMENTATION-PLAN.md:992` asks for four *consecutive* good errors and for acquiring again on every
  reject. The code leaves the counter alone between 100 us and 1 ms, ignores rejected observations, and also
  zeroes the counter on a stale check. `OverlayRuns.LockCountsGoodErrors` gives the exact rule over all
  runs; `OverlayRuns.InterruptedErrorsLock` is a run that locks without two good errors in a row, and
  `OverlayRuns.StaleCheckBreaksStreak` one that does not lock after four. One consequence is
  `OverlayRuns.StaleMediaStarvesLock`: once media has gone stale, the checks the media thread keeps making
  stop a clock without a streak from ever locking to PTP.
- `docs/IMPLEMENTATION-PLAN.md:1052` pauses after `rx_latency + 50 ms` without packets; the code returns no
  frames after 60 ms, whatever the latency. `Ring.PauseIsDocumentedIff10Ms` gives the only latency at which
  the two rules agree.

## Model

| member | source | states |
|---|---|---|
| Overlay.OverlayClock.Observe | src/clock/overlay.rs:130-204 | one observation: every gate in order, the frequency blend, the clamped slew, the lock counter; the new state is a function of the old one and keeps the invariant, so `error.abs()` never overflows |
| Overlay.OverlayClock.GetStatus | src/clock/overlay.rs:122-128 | PtpLocked needs the PTP source and a streak of at least 4 |
| Overlay.OverlayClock.MarkUnlockedIfStale | src/clock/overlay.rs:223-232 | drops source and streak only after an idle time, never while locked to PTP |
| Overlay.OverlayClock.ObserveInitialised | src/clock/overlay.rs:155-203 | the servo half of an observation: gates, estimate, slew, publish, lock |
| Overlay.OverlayClock.UpdateLock | src/clock/overlay.rs:194-202 | the lock counter and the acquiring flag after an error of a given size |
| Overlay.ObserveKeepsValid | src/clock/overlay.rs:130-204 | every call keeps: residual at most 199,950,000 ns, frequency at most 500 ppm, a streak of 4 implies not acquiring |
| ServoMeans.ObserveMeans | src/clock/overlay.rs:130-204 | everything an observation does, in every case: when media is not heard, what the first observation sets, the gates in ns, and for a used one the source, the estimate (an eighth of the way to the nearest point within 500 ppm of the measured rate error), the shift (the prediction moved by the nearest step of at most 1 ms or 50 us), and the lock counter |
| ServoMeans.EstimateIsNearest | src/clock/overlay.rs:169-171 | every accepted observation blends in a rate within 500 ppm to which no other one is nearer |
| ServoMeans.ReadingMeans | src/clock/overlay.rs:84-96 | a reading is local time plus shift plus the truncated product of elapsed time and frequency, modulo 2^64 |
| ServoMeans.StatusMeans | src/clock/overlay.rs:122-128 | exactly when each of the three states is reported |
| ServoMeans.StaleCheckMeans | src/clock/overlay.rs:223-232 | exactly when a stale check takes source and streak, and that it does nothing else |
| Overlay.CorrectionBound | src/clock/overlay.rs:91-92 | the truncated frequency correction of an interval is at most 500 ppm of it |
| Overlay.ErrorDecomposition | src/clock/overlay.rs:155-175 | the error the servo sees is the old residual plus the interval skew minus the correction, without wrap |
| Overlay.ErrorBounded | src/clock/overlay.rs:155-177 | past the interval gates the error is at most 251,950,000 ns |
| Overlay.ResidualAfterSteer | src/clock/overlay.rs:177-192 | the residual a publish leaves is the error minus the applied slew, again below the bound |
| OverlayRuns.RunKeepsValid | src/clock/overlay.rs:130-232 | the invariant holds after any sequence of observations from either source and stale checks |
| OverlayRuns.ReachableErrorsAreSmall | src/clock/overlay.rs:162-177 | in every reachable state the residual, the frequency and any gated error stay within their bounds |
| OverlayRuns.DriftIsBounded | src/clock/overlay.rs:84-96 | over any run the published overlay time increases and deviates from elapsed local time by at most 500 ppm plus 1 ms per publish, hence at most 0.55 percent; publishes are 200 ms to 4 s apart |
| OverlayRuns.LockedStepIsSmall | src/clock/overlay.rs:181-188 | while locked to PTP a publish corrects by at most 50 us |
| OverlayRuns.ReadingAfterPublish | src/clock/overlay.rs:98-116 | a reading at the moment of a publish differs from the reading before it by the applied slew only |
| OverlayRuns.MediaCannotDisturbLock | src/clock/overlay.rs:131-140 | any run of media observations and stale checks leaves a PTP-locked clock unchanged but for the media timestamp |
| OverlayRuns.LeavingLock | src/clock/overlay.rs:194-202 | exactly which event leaves PtpLocked: an accepted PTP observation more than 1 ms off, or the counter wrapping |
| OverlayRuns.EnteringLock | src/clock/overlay.rs:194-203 | exactly which event enters PtpLocked |
| OverlayRuns.LockCountsGoodErrors | src/clock/overlay.rs:130-232 | after any run from a fresh clock the streak is the number of accepted errors below 100 us since the last accepted error above 1 ms or effective stale check, in 32 bits; the clock acquires exactly while that number has not reached 4 since the last accepted error above 1 ms |
| OverlayRuns.LockedIsFourGoodErrors | src/clock/overlay.rs:122-128 | below 2^32 observations, locked to PTP means exactly: PTP published last, and at least four good errors came since the last reset |
| OverlayRuns.InterruptedErrorsLock | src/clock/overlay.rs:194-203 | a run of PTP observations, all accepted, no two good ones in a row, that locks: the documented rule fails |
| OverlayRuns.StaleCheckBreaksStreak | src/clock/overlay.rs:223-232 | a run with four good PTP observations and nothing bad between them that does not lock, because a stale check came before the fourth: the rule fails the other way too |
| OverlayRuns.StaleMediaStarvesLock | src/clock/overlay.rs:223-232 | once media was seen and has gone stale, stale checks between the PTP observations keep a clock with streak 0 from ever locking to PTP |
| OverlayLock.ClosedForms | src/clock/overlay.rs:169-171 | after k steps of a constant ratio rho the estimate is rho * (1 - (7/8)^k) and the unpredicted share x * (7/8)^k |
| OverlayLock.EveryObservationIsTaken | src/clock/overlay.rs:130-232 | for every master with constant skew within 500 ppm, every interval of 200 ms to 4 s and any stale checks of which none expires: throughout the run, locked or not, every PTP observation is accepted, freq after n is rho * (1 - (7/8)^n), the residual is at most 16 ms * (1 - (7/8)^n), and the error differs from it by at most the unpredicted skew plus 1 ns |
| OverlayLock.LockedForGood | src/clock/overlay.rs:122-204 | from the 33rd of these observations on (the 28th if no interval is off by more than 1 ms) the clock never acquires again, and its status is PtpLocked, until the streak wraps at 2^32 |
| OverlayLock.CatchesUp | src/clock/overlay.rs:174-192 | from the 71st on (then the 66th) the published overlay agrees with the master, and each error is at most the skew times (7/8)^n plus 1 ns |
| OverlayLock.EarlyLockIsLost | src/clock/overlay.rs:181-202 | a run of six such observations that is locked after the fourth and acquiring again after the sixth: the 50 us slew does not keep up with a poor estimate |
| OverlayLock.TrackingStep | src/clock/overlay.rs:155-203 | until it first locks, one observation of such a master that is off by at most 1 ms leaves residual 0, moves the estimate one step, and keeps acquiring or locks |
| OverlayLock.TrackingError | src/clock/overlay.rs:174-177 | and the k-th error is at most the unpredicted skew plus 1 ns |
| OverlayLock.LocksWithin22 | src/clock/overlay.rs:142-232 | after a first observation from PTP or media, a master off by at most 1 ms per interval is locked to for the first time by its 22nd observation, with residual 0 until then; that this lock can be lost, and when it no longer can, is the subject of EarlyLockIsLost and LockedForGood |
| Seqlock.NextInv | src/clock/overlay.rs:98-116 | every single load or store of the writer or of any reader keeps the protocol invariant |
| Seqlock.ReadsArePublished | src/clock/overlay.rs:98-116 | whoever leaves the retry loop uses one published triple, which was the latest one all the time between its two `seq` loads |
| Seqlock.PublishedGrows | src/clock/overlay.rs:214-221 | snapshots are published in order and never withdrawn |
| Seqlock.PublishMeans | src/clock/overlay.rs:214-221 | a publish on its own stores the three new fields, raises `seq` by 2 and appends its snapshot to the history; the first one then sets `initialized` |
| Seqlock.TwoWritersTear | src/clock/overlay.rs:214-221 | from any quiet state, two threads that publish at once make a reader accept a snapshot nobody published: the lock holds for one writer at a time only |
| Ptp.Listener.HandleEvent | src/clock/ptp.rs:52-80 | a Sync on the event port becomes an observation, becomes the pending Sync, or changes nothing |
| Ptp.Listener.HandleGeneral | src/clock/ptp.rs:82-108 | a Follow_Up consumes the pending Sync only when it matches, and restores it otherwise |
| Ptp.Listener.Listen | src/clock/ptp.rs:29-48 | after any packets the pending Sync and the clock are those of the packet-by-packet rules |
| Ptp.ObservationsArePtp | src/clock/ptp.rs:71-107 | the clock is shown exactly these observations, in order, as PTP |
| Ptp.EventMeans | src/clock/ptp.rs:52-80 | a packet on the event port, by its bytes: version 1, our subdomain at 4, control 0 at 32; with a time at 40 that is not all zeros it is observed as seconds times 10^9 plus nanoseconds, else its sender at 22 and sequence number at 30 are kept |
| Ptp.GeneralMeans | src/clock/ptp.rs:82-108 | a packet on the general port, by its bytes: control 2, sender at 22, sequence number at 40, time at 44 |
| Ptp.FollowUpPairs | src/clock/ptp.rs:82-108 | a Follow_Up is observed exactly when it answers the last two-step Sync of our subdomain, not yet answered, by the bytes of sender and sequence number; the observation pairs the time at byte 44 with that Sync's arrival |
| Ptp.OneStepObserves | src/clock/ptp.rs:68-74 | on the event port exactly the Syncs with a time at byte 40 other than zeros are observed, with that time |
| Ptp.SyncsAreUsedOnce | src/clock/ptp.rs:98-107 | no Sync yields two observations |
| Ptp.ObservationsUseASync | src/clock/ptp.rs:52-108 | every observation uses a Sync, with its arrival time |
| Ptp.ObservationsUseOneSync | src/clock/ptp.rs:52-108 | and no other Sync |
| Slots.MaskIsRemainder | src/media/ring.rs:98 | masking with length minus one is the remainder, for a power-of-two length |
| Slots.WrapKeepsSlot | src/media/ring.rs:90-98 | wrapping a position at 2^64 does not change its slot |
| Slots.SlotsDiffer | src/media/ring.rs:98 | positions less than one ring apart have different slots |
| Ring.NewRing | src/media/ring.rs:22-39 | the ring for a latency is empty, with the length computed from that latency |
| Ring.LengthIsPower | src/media/ring.rs:23-25 | that length is a power of two, at least 2048 and four latencies |
| Ring.LengthIsSmallest | src/media/ring.rs:23-25 | and the smallest such |
| Ring.PlanarRing.SetPatched | src/media/ring.rs:41-47 | sets the flag of one channel and no other; a channel outside the ring is ignored |
| Ring.PlanarRing.WritePacket | src/media/ring.rs:72-109 | every lane becomes the lane with the frames that are neither late nor overrun stored for its mapped slot |
| Ring.PlanarRing.StoreFrame | src/media/ring.rs:99-107 | one frame reaches exactly the mapped channels; of two slots mapped to one channel the later wins |
| Ring.SampleMeans | src/media/ring.rs:99-106 | the sample a frame carries for a channel is the one behind the last flow slot that maps to it |
| Ring.PlanarRing.Read | src/media/ring.rs:112-155 | frame f of channel ch is put at f * n + ch: the sample the read finds there, or 0; the rest of the buffer stays and every visited slot is emptied; as many frames as asked for and fit if some channel is patched and a packet came within 60 ms, otherwise none |
| Ring.InterleavedAt | src/media/ring.rs:141-153 | sample f * n + ch of the buffer is what frame f found in lane ch |
| Ring.PauseIsDocumentedIff10Ms | src/media/ring.rs:126-138 | the code follows the documented pause rule for every elapsed time if and only if the latency is 10 ms |
| RingRefinement.ReadConserves | src/media/ring.rs:141-153 | a read moves samples out of the ring: delivered plus remaining is what was there |
| RingRefinement.WriteAddsAtMost | src/media/ring.rs:89-108 | a write adds at most the samples it was offered |
| RingRefinement.NothingDeliveredTwice | src/media/ring.rs:72-155 | over any reads and writes no stored sample is delivered more often than it was written |
| RingRefinement.WrittenAt | src/media/ring.rs:89-108 | a slot holds the last accepted frame of the packet that falls on it, or is as before |
| RingRefinement.OrderDoesNotMatter | src/media/ring.rs:83-108 | packets that agree on shared positions leave the same lane in any order, with any repetition |
| RingMap.GateExact | src/media/ring.rs:91-97 | the wrapped late and overrun tests accept exactly the window of one ring length |
| RingMap.PutHoldsIffNoClash | src/media/ring.rs:83-108 | ring and position map agree after a packet was written to both if and only if no stored frame falls on the slot of another pending sample |
| RingMap.ReadAgreesIffAligned | src/media/ring.rs:141-153 | a read from any position, of any length, returns what the map holds for its positions if and only if every pending sample whose slot it visits lies within one ring from its start |
| RingMap.BufferIsMapIff | src/media/ring.rs:141-153 | the caller's buffer holds for each position what the map has, silence for gaps, if and only if every pending sample other than silence whose slot the read visits lies within one ring from its start |
| RingMap.TakeHolds | src/media/ring.rs:141-153 | whatever its position and length, a read removes exactly the pending samples whose slots it visits |
| RingMap.RingRefinesMap | src/media/ring.rs:72-155 | any run of writes without clashes and aligned reads, read positions moving either way, outputs what the unbounded map outputs, across the 2^64 wrap and for reads longer than the ring |
| RingMap.RunAgreesIffClashFree | src/media/ring.rs:72-155 | a run, its packets within half the u64 range of the read position, agrees with the map in every outcome and in what is stored after every step if and only if it is such a run |
| RingMap.FreshRingIsAMap | src/media/ring.rs:21-155 | from a new ring on, any such run outputs what the initially empty unbounded map outputs |
| RingMap.WindowedIsClashFree | src/media/ring.rs:72-155 | every run that stays in a window of one ring length that moves forward past delivered samples is such a run, wherever its reads start in the window |
| RingMap.PutIsDelivered | src/media/ring.rs:72-155 | after a packet was written, let any such run follow that neither reads the position of one of its frames nor brings another sample there: an aligned read that covers the position delivers that frame |
| RingMap.PassedSampleComesBack | src/media/ring.rs:141-153 | what goes wrong otherwise: a pending sample is delivered to any read a whole number of rings behind or ahead of it, where the map has a gap |
| MediaTime.TimestampsAreExact | src/protocol/media.rs:15-25 | no timestamp of an allowed rate wraps |
| MediaTime.PacketTimeIsSampleTime | src/protocol/media.rs:15-25 | the packet's time is the time of its first sample |
| MediaTime.SplitRoundTrip | src/protocol/media.rs:50-55 | splitting a sample index and joining it again is exact if and only if the seconds fit 32 bits |
| MediaTime.ReadPositionIsDue | src/device/mod.rs:281-293 | the wrapped read position stands for the exact one, and nothing is due before the first latency has passed |
| MediaTime.ReadPositionMeans | src/device/mod.rs:456-467 | with q whole samples passed and l in the latency the read position is q - l modulo 2^64, and something is due exactly when q has reached l |
| MediaTime.SplitMeans | src/protocol/media.rs:50-55 | the parts are whole seconds, in 32 bits, and the samples left |
| MediaPath.TryRead | src/device/mod.rs:281-310 | an error once stopped; nothing before the first latency has passed or if no frame fits; else the block due now with its position and time, as many whole frames as fit the caller's buffer, or none if the ring has paused |
| MediaPath.NowMeans | src/clock/overlay.rs:98-116 | local time before the first publish, afterwards a reading of the snapshot |
| MediaTime.DueStepsBack | src/device/mod.rs:456-467 | an overlay time at most b ns below another one is due at most b ns worth of samples, rounded up, before it |
| Playout.ReadingsRise | src/clock/overlay.rs:84-116 | a later reading of the same snapshot is never smaller |
| Playout.ReadingsAcrossPublish | src/clock/overlay.rs:84-192 | between a reading before and one after a publish the overlay time falls by at most the applied slew, itself at most 50 us when not acquiring and 1 ms otherwise, plus 1/8000 of the time by which the publish's own time lies outside the two readings and 3 ns |
| Playout.ReadPositionStepsBack | src/device/mod.rs:281-293 | a publish between two readings moves the read position back by at most the samples of that fall, hence by at most rate / 1000 + 1 if its time lies between them |
| Playout.LatePacketMovesReadBack | src/device/mod.rs:281-293 | it does move back: a media packet 1 ms late takes it 48 samples back at 48 kHz |
| MediaTime.FramesInBuffer | src/media/rx.rs:71 | a packet that fits the receive buffer holds at most 1019 frames |
| MediaTime.ArrivalWindow | src/media/rx.rs:112-140 | within plus or minus rx_latency of its own time no frame of a packet is late and none overruns, by the tests of the ring itself, for every allowed rate and latency |
| MediaTime.PacketIsPlayed | src/media/rx.rs:112-140 | and whatever writes without clashes and aligned reads come in between, the aligned read that covers the position of a frame delivers its sample |
| Pcm.PromoteInterleaved | src/protocol/pcm.rs:18-42 | the samples of the whole frames, left-justified; a partial frame is dropped |
| Pcm.EncodeInterleaved | src/protocol/pcm.rs:44-65 | the bytes of the whole frames |
| Pcm.PromotedAt | src/protocol/pcm.rs:18-42 | how many samples there are, and which bytes the i-th one is made of |
| Pcm.PromoteMeans | src/protocol/pcm.rs:5-16 | a sample is the big-endian number of its 2, 3 or 4 bytes at the top of 32 bits; other widths give 0 |
| Pcm.EncodePromoted | src/protocol/pcm.rs:5-65 | encoding what was promoted returns exactly the whole frames' bytes, for 2, 3 and 4 byte samples |
| Pcm.PromoteEncoded | src/protocol/pcm.rs:5-65 | promoting what was encoded returns the whole frames with the unused low bits cleared |
| MediaPath.MediaRoundTrip | src/protocol/media.rs:28-48 | decoding an encoded packet gives header and samples back |
| MediaPath.MediaLayout | src/protocol/media.rs:41-48 | byte 2, seconds at 1, index at 5, samples from 9 on |
| MediaPath.MediaMeans | src/protocol/media.rs:28-39 | what is taken from any datagram of at least 9 bytes, and nothing from a shorter one |
| MediaPath.ReceiveDatagram | src/media/rx.rs:118-142 | keepalives and short datagrams change nothing; any other is observed by the clock and written to the ring at the read position of the new overlay time |
| MediaPath.BlockArrives | src/protocol/media.rs:28-55 | a sent block is received with its sample index, its frames and its samples, up to the bits the format drops |
| MediaPath.SentSampleIsHeard | src/media/rx.rs:118-142 | end to end: a sample sent in a datagram that arrives in its window without a clash is delivered, bit for bit as far as the format carries it, by the aligned read that covers its position, whatever clash-free run used the ring in between |
| MediaPath.SentSampleIsPlayed | src/media/ring.rs:141-153 | and the listener's buffer then holds that sample, with the low bits the format drops cleared, at the frame and channel where it is due |
| Bytes.BigEndian | src/protocol/buf.rs:1-60 | numbers of two and four bytes are read and written with the most significant byte first |
| Utf8.Utf8IsExact | src/protocol/mdns.rs:100 | the bytes taken for text are exactly the UTF-8 encodings of code points (section 3 of RFC 3629) |
| Bytes.ValidConcat | src/protocol/mdns.rs:106 | joining well-formed UTF-8 is well-formed |
| Bytes.ValidSplit | src/protocol/mdns.rs:60 | splitting well-formed UTF-8 at an ASCII byte gives two well-formed parts |
| Buf.PatchSlot | src/protocol/buf.rs:110-112 | patching a placeholder is the same as having written the value there |
| Buf.CStrReads | src/protocol/buf.rs:124-137 | a NUL-free string written at a non-zero offset is found by that offset |
| Names.JoinSplit | src/protocol/mdns.rs:60 | joining the labels of a string with dots gives the string back |
| Names.SplitMeans | src/protocol/mdns.rs:60 | and no label has a dot in it |
| Names.JoinMeans | src/protocol/mdns.rs:106 | joining puts one dot, byte 46, between labels |
| Names.TrimMeans | src/protocol/mdns.rs:55 | all dots at the end are trimmed, and nothing else |
| Names.WriteName | src/protocol/mdns.rs:54-66 | appends the labels of the name without its trailing dots, each with its length byte |
| Names.ReadName | src/protocol/mdns.rs:68-107 | the loop over labels and pointers reads the labels reachable with at most 16 jumps, and terminates on every input, pointer cycles included |
| NameTheorems.DecompressionIsExact | src/protocol/mdns.rs:68-107 | a name is read, with an end, exactly when the pointer rules of section 4.1.4 of RFC 1035 lead, with at most 16 jumps, to UTF-8 labels of 1 to 63 bytes that it joins, the end being that of its own bytes |
| NameTheorems.CompressedNameReads | src/protocol/mdns.rs:81-90 | labels followed by a pointer are read with all the labels the pointer leads to, for up to 16 pointers in a row, and the name ends behind its own pointer |
| NameTheorems.SharedSuffixReads | src/protocol/mdns.rs:54-107 | in particular when the pointer leads to a name that was written in full |
| NameTheorems.TrailingDotsAreDropped | src/protocol/mdns.rs:54-66 | a name with dots at its end is read back without them |
| NameTheorems.NameAdvances | src/protocol/mdns.rs:68-107 | a name that was read moves the reader forward and stays inside the message |
| NameTheorems.NamesSurviveIffCanonical | src/protocol/mdns.rs:54-107 | a written name is read back as itself, wherever it stands, if and only if it is empty or all its labels are 1 to 63 bytes long |
| Mdns.WriteRecord | src/protocol/mdns.rs:174-211 | appends the record; the patched length is that of its data |
| Mdns.Encode | src/protocol/mdns.rs:110-127 | the message's bytes, counts first |
| Mdns.ReadStrings | src/protocol/mdns.rs:236-248 | the character strings of a TXT record; a cut-off last one is dropped |
| Mdns.ReadRecord | src/protocol/mdns.rs:213-270 | one record, or nothing for a type that is not understood or a field out of range |
| Mdns.Decode | src/protocol/mdns.rs:129-171 | the message, or nothing; no index is out of range for any bytes |
| MdnsTheorems.StringsRoundTrip | src/protocol/mdns.rs:193-198 | strings of up to 255 bytes, empty ones included, are read back |
| MdnsTheorems.RecordRoundTrip | src/protocol/mdns.rs:174-270 | a record standing anywhere in a message is read back whole |
| MdnsTheorems.MessageRoundTrip | src/protocol/mdns.rs:110-171 | decoding an encoded message gives it back, for every well-formed message with any number of questions, answers and additionals |
| MdnsExact.DecodingIsExact | src/protocol/mdns.rs:129-171 | a datagram is decoded as a message if and only if that message stands in it: id, flags and four counts at their positions, then questions, answers, authority records and additionals one after another, each by the byte positions of section 4.1 of RFC 1035, with compressed names |
| MdnsExact.RecordIsExact | src/protocol/mdns.rs:213-270 | a record is read exactly when name, type, class, time to live, length and data of one of the four types stand there |
| MdnsExact.QuestionsAreIn | src/protocol/mdns.rs:119-123 | a written question is of class IN |
| MdnsTheorems.DecodedIsBounded | src/protocol/mdns.rs:129-171 | a decoded message has the counts its header states, and 5 bytes a question and 11 a record fit into its length minus 10 |
| ReqResp.Decode | src/protocol/req_resp.rs:15-32 | header and content up to the stated length or the end of the packet |
| ReqResp.ParsedMeans | src/protocol/req_resp.rs:15-32 | which packets are read, and the five numbers and the content, by position |
| ReqResp.PacketLayout | src/protocol/req_resp.rs:34-45 | start code, length in 16 bits, sequence number, two opcodes, content, by position |
| ReqResp.PaginationMeans | src/protocol/req_resp.rs:62-71 | the start of a page request is the number at byte 2 less one; a short request or a 0 has none |
| ReqResp.RoundTripIffShort | src/protocol/req_resp.rs:15-45 | a packet is read back whole if and only if it is shorter than 2^16 bytes |
| ReqResp.PageRequestReads | src/protocol/req_resp.rs:62-71 | the 1-based start of a page request is read back |
| ArcPages.EncodeRxChannels | src/protocol/arc.rs:124-202 | the page: slots reserved ahead, strings appended, each item copied into its slot, count and opcode set last |
| ArcPages.ContentLayout | src/protocol/arc.rs:124-202 | a page has slots for the channels left, at most 16; slot and channel counts, filled slots, zeros, format and strings stand at their positions; nothing left gives two zeros |
| ArcPages.PageStops | src/protocol/arc.rs:149-159 | how many channels a page takes: it stops at 16, at the last one, and where its bytes have reached 800 |
| ArcPages.CodeMeans | src/protocol/arc.rs:200-201 | opcode 0x8112 if there are more channels, else 1 |
| ArcPages.ItemLayout | src/protocol/arc.rs:160-187 | the twenty bytes of an item, every field and where its strings start |
| ArcPages.PcmLayout | src/protocol/arc.rs:140-147 | the sixteen bytes of the format |
| ArcPages.FillSlot | src/protocol/arc.rs:175-195 | copying an item over its reserved bytes touches no other byte |
| ArcWalk.AnswerRequest | src/device/arc.rs:105-132 | the answer to a page request starts at the requested channel, or at the first one if the request is malformed |
| ArcWalk.AnswerMeans | src/device/arc.rs:105-132 | and that is the number at byte 2 of the request less one, or 0 |
| ArcWalk.ItemReads | src/protocol/arc.rs:160-194 | following an item's offsets gives id, rate, bits, friendly name, transmitter names when both are set, and status |
| ArcWalk.PageReads | src/protocol/arc.rs:124-202 | a page gives back every counted channel, and says whether there are more |
| ArcWalk.PageIsPrefix | src/protocol/arc.rs:149-159 | a page holds at least one channel if any is left, and a prefix of what is left |
| ArcWalk.PageIsShort | src/protocol/arc.rs:156-159 | a page of readable channels fits the 16-bit length field |
| ArcWalk.WalkRecoversAll | src/protocol/arc.rs:124-202 | a client that advances by the count while the page says there is more recovers the whole channel list in order, within one request per channel |
| FlowRequest.EncodeRequestFlow | src/protocol/flows_control.rs:19-70 | the request packet with its two patched offsets |
| FlowRequest.RequestLayout | src/protocol/flows_control.rs:19-70 | start code 0x1102, opcode 0x0100, and the fixed fields a reader that follows the offsets does not need |
| FlowRequest.PadToEight | src/protocol/flows_control.rs:57-59 | pads with zeros to the next packet offset that is a multiple of 8 |
| FlowRequest.RequestReadsBack | src/protocol/flows_control.rs:19-70 | following only the offsets in the packet gives back rate, bits, frames per packet, ids, both names, port and address; the forward offset lands on its marker |
| FlowRequest.SocketIsAligned | src/protocol/flows_control.rs:57-62 | the socket descriptor stands at the first multiple of 8 after the strings and ends the packet |
| Subscriptions.Tables.ApplyRecord | src/device/subscribe.rs:45-64 | an unsubscribing record resets its channel and gives up its flow; another sets the two names, keeps the old flow id and becomes unresolved; no other channel changes |
| Subscriptions.Tables.MarkFlowReceiving | src/device/subscribe.rs:107-114 | exactly the channels on that flow get status 0x01010009, and nothing else of any channel changes |
| Subscriptions.Tables.TakeFlow | src/device/subscribe.rs:117-121 | takes the first flow with the id out of the table, keeping the others in order |
| Subscriptions.AfterTake | src/device/subscribe.rs:117-121 | removing from a table with distinct ids removes exactly that id |
| Subscriptions.Tables.Establish | src/device/subscribe.rs:140-264 | an establish task from top to bottom: which tables change for every early return, and which flow the media thread is told of |
| Subscriptions.EstablishedMeans | src/device/subscribe.rs:140-264 | that effect field by field: names, statuses 1 and 8, the registered flow, the flow ids used up |
| Subscribe.EstablishIsItsSteps | src/device/subscribe.rs:140-264 | the six atomic steps of a task, taken without interruption, have exactly the effect of that code on the tables and on the media thread's queue, for every answer of the network |
| SubscribeSafety.NextInv | src/device/subscribe.rs:38-264 | every atomic step of every task and of the media thread keeps the invariant |
| SubscribeSafety.FlowsBelongToTheirSubs | src/device/subscribe.rs:217-243 | in every reachable state a subscription's flow is registered with that one channel, and no other subscription has it |
| SubscribeSafety.ReceivingMeansDecoded | src/device/subscribe.rs:107-114 | a channel reported as receiving has a flow on which the media thread decoded a packet |
| SubscribeEffects.ReceivingIffDecoded | src/device/subscribe.rs:107-114 | after any run a channel is reported as receiving if and only if at some step the first packet was decoded on the flow it then had, and since then it was not switched, cleared or reported on by an establish task |
| SubscribeEffects.StepMeans | src/device/subscribe.rs:38-264 | what each kind of step does to each channel |
| SubscribeEffects.PacketMeans | src/media/rx.rs:138-144 | the first packet decoded on a flow makes exactly its channels receiving; later ones change no channel |
| SubscribeEffects.MediaStepMeans | src/media/rx.rs:76-110 | the media thread takes its commands in order; an added flow has not been heard yet |
| SubscribeEffects.SubscribeMeans | src/device/subscribe.rs:45-73 | a subscribing record, uninterrupted: names, patch flag, a new task, and nothing else |
| SubscribeEffects.UnsubscribeMeans | src/device/subscribe.rs:45-66 | an unsubscribing record, uninterrupted: the channel is cleared and unpatched, its flow taken out of the table, a removal sent to the media thread and a stop packet to the transmitter |
| SubscribeEffects.TakenFlowsAreStopped | src/device/subscribe.rs:116-138 | in every reachable state between records, every flow taken out of the table whose transmitter gave a handle has had its stop packet |
| SubscribeSafety.FlowsStopOnce | src/device/subscribe.rs:116-138 | over every run no flow is stopped twice, and a stop packet goes where its flow was granted |
| SubscribeSafety.StopsUseGrantedHandles | src/device/subscribe.rs:126-137 | for every stop packet the run has an earlier step in which a task had requested exactly that flow from exactly that address and was answered with exactly that handle |
| SubscribeSafety.TableIsGrantedMinusTaken | src/device/subscribe.rs:116-138 | the flow table holds exactly the granted flows that were not taken out: a flow replaced by a new subscription stays |
| SubscribeSafety.PatchedFollowsSubscribed | src/device/subscribe.rs:65-73 | in every reachable state the patched channels are the subscribed ones, leaving aside the one being switched |

## Left out

- Sockets, multicast joins, interface lookup, thread and task spawning, logging, the command-line example.
- `Device` start, shutdown and drop: lifecycle plumbing; in the subscribe model a stop is a message to the media thread.
- mDNS resolution and the flow request exchange: an establish task's network steps succeed or fail freely.
- `encode_rx_flows`: its reserved and its patched slots disagree by two bytes, so it has no clean layout to state.
- Fixed-layout payloads (counts, names, port ranges, board and product data), `parse_subscribe`, `parse_rename_rx`, `rename_rx` and `Settings` validation: easier members of kinds already covered.
- `build_announcement`, `build_probe`, `names_match`, `txt_get` and `parse_fpp`.
- Floating-point rounding: frequencies are exact reals.
- Weak memory: the sequence lock is modelled with sequentially consistent loads and stores, one writer at a time, and a `seq` counter that does not wrap. The code does not enforce one writer: `src/clock/ptp.rs:71,107` and `src/media/rx.rs:131` call `observe` from two threads without a lock. `Seqlock.TwoWritersTear` shows what a reader can then get; nor do the clock modules cover two observations at once.
- Flow ids wrap after 65535 in the code and never in the subscribe model; packet sequence numbers are not part of it.
- Keepalive timing and the order in which the media thread visits its flows.
- The code lets an unsubscribe overtake an establish task, keeps replaced flows, and reads unpatched channels like any other; nothing is claimed against that.
- Overlay.OverlayClock.NowNs: reads the snapshot in one step; the retry loop over `seq`, and the stores of a publish one by one, are module `Seqlock`.
- Ring.NewRing: requires four times the latency to be at most 2^63, because `next_power_of_two` has no answer above that.
- Ring.PlanarRing.WritePacket: requires the samples indexed for the frames that pass the gates to be there, because the code panics exactly when one is missing; poisoned locks are not modelled, and the time since the last packet is a number passed in.
- Ring.PlanarRing.StoreFrame: requires the samples indexed for its frame to be there, for the same reason.
- RingMap.RingRefinesMap: only for runs without clashes, because the ring is no map otherwise: `RingMap.RunAgreesIffClashFree` says so for every run, `RingMap.ReadAgreesIffAligned` and `RingMap.PutHoldsIffNoClash` for one operation, and `RingMap.PassedSampleComesBack` shows what a reader gets that passed a sample.
- MediaPath.ReceiveDatagram: requires what `WritePacket` requires, for the packet and read position it will use; the wakeup callback and keepalive replies are left out.
- MdnsTheorems.MessageRoundTrip: one direction only; an oversized name in the very last record would survive too, because its length field is not needed to read it.
- Patching one page item copies the whole buffer in the code; the model patches it in place.
