# Verification of the OpenConfigurator runtime

OpenConfigurator is a browser ground station. Its Worker speaks MAVLink and two ESC protocols by hand-written engines
with buffers, counters, timers and retries. This project models those engines in Dafny and proves what they promise.

- `Bytes`, `Crc`: numbers as bits, shift registers, and the three checksums (ITU-T V.41 CRC16, the X.25 checksum of
  MAVLink, CRC32).
- `EscFrames`: 4-way and MSP frames and the transaction that collects a response over serial chunks.
- `MavlinkFrames`, `MavlinkChunking`, `MavlinkSerializer`, `OrderedMaps`, `CodecSession`, `SigningPolicy`,
  `SequenceNumbers`, `MavlinkSession`, `MavlinkEndToEnd`: packets of the MAVLink developer guide ("Serialization": "Packet Format" and "Empty-Byte Payload
  Truncation"; "Message Signing"), stream framing, truncation, replay watermarks, the session object that joins them, and
  two such sessions talking to each other.
- `Intervals`, `PartFiles`, `FtpDownload`, `LogDownload`, `LogList`, `DeleteExpansion`: lossy bulk transfer (MAVLink "File
  Transfer Protocol (FTP)" and log messages), the list of logs, and the expansion of a delete request.
- `CommandCells`, `CommandRuns`, `Commands`, `ParamDownload`, `ParamWrite`, `Airframe`: command and parameter transactions.
- `Calibration`, `CalibrationRuns`, `CalibrationOutcomes`, `CalibrationProgress`, `CalibrationSession`, `Autotune`,
  `AutotuneOutcomes`, `AutotuneSession`, `RadioCalibration`, `EscSession`, `EscOutcomes`: session state machines, what their
  events and runs mean, and the objects that carry them out.
- `Dataflash`, `DataflashHistory`, `DataflashReadBack`: the resynchronising DataFlash log decoder, what it says told by the
  records alone, and that what is put into a log is what comes out.

Objects the runtime changes in place are classes. Their `Valid()` carries the invariant of the session, every method keeps
it, and what a method guarantees to its caller is stated beside it. Where a class has a rule function as well, each method
is proved to change the object as that function says, so what is proved about runs of the function holds of the object.
Timers are events that carry the time; a link write is a parameter saying whether the link took it; a peer is an arbitrary
function, so every statement holds against any peer unless it names what it assumes about it. What is assumed of a peer is
always a predicate on what it sends (`FtpDownload.TruePeer`, `LogDownload.TrueStream`, `DeleteExpansion.Truthful`).

Where the code does not do what its comments or its users may expect, the model follows the code and says so:

- Chunking of arbitrary bytes can change what is delivered (`MavlinkChunking.ChunkingCanShow`): a cut stays hidden
  whatever follows if and only if no incomplete packet with an unknown id was abandoned before it
  (`MavlinkChunking.CutInvisibleExactly`).
- Version 1 packets lose message id bits above the eighth (`MavlinkSerializer.V1DropsHighIdBits`).
- A codec reset forgets the last signing stamp; the next packet is refused as a replay exactly when the clock has not
  passed that stamp (`MavlinkSession.ResetMayReplay`).
- A late short log chunk truncates a log (`LogDownload.LateShortChunk`). The size saved is the right one if and only if no
  pass ended with a short chunk below it (`LogDownload.SizeIsTrueExactly`). Bytes written beyond the new end stay in the
  file on disk, which is then longer than the size registered for it.
- Listing logs: a listing whose request the link refused goes on asking after it has ended, exactly while its timer fires,
  attempts remain and nobody cancels (`LogList.WritesLateExactly`); an empty reply ends a list early
  (`LogList.EmptyReplyEndsList`); and a window without logs never completes while the vehicle has others
  (`LogList.TruthfulListing`), so asking for a missing log ends as a timeout, not as a missing log.
- The delete list may hold up to 518 entries, and one directory with 511 files before a nest of directories reaches that
  number (`DeleteExpansion.PlanBeyondLimit`): the limit is compared only where the last leaf is added
  (`DeleteExpansion.ExpandableExactly`).
- A failed verified write does not undo the entry that failed (`VerifiedWrites.RestoredExactlyWhen`).
- The compass completeness test can hold without any compass (`CalibrationRuns.VacuousMask`). It says what it should for
  every state if and only if the mask names no compass above the eighth (`CalibrationRuns.TestIsRightExactly`); a session
  that hears of such a compass ends as done and verified with nothing saved (`CalibrationRuns.DoneWithoutSaving`).
- A radio channel that drops out during a movement step is taken as movement and gets the minimum 0
  (`RadioCalibration.RadioSession.CaptureMovement`).
- A pending change to test mode survives autotune's success line, and exactly then the next status in the initial mode
  switches the mode (`AutotuneRules.SuccessKeepsTransition`); such a session asks for AutoTune mode twice
  (`AutotuneRules.AsksAgainUnasked`).
- Autotune waits for the firmware to save only until the next status: a second disarmed status ends the session as
  interrupted, and the saved line then comes too late (`AutotuneOutcomes.SecondStatusLosesTheSave`).

## Model

| member | source | states |
|---|---|---|
| CrcRegisters.AbsorbAll | src/shared/esc/crc.ts:6-28 | message bits xored into the register ahead of time act exactly like bits fed one by one at the output end |
| Crc.StepsByTable | src/shared/esc/crc.ts:9-16 | eight register steps are one table entry for the leaving byte, xored onto the byte that stays; the identity behind every table-driven loop |
| Crc.BuildTable | src/shared/esc/crc.ts:6-16 | the nested loops fill the table with the eight-step image of every byte |
| Crc.Crc16Xmodem | src/shared/esc/crc.ts:22-28 | the table-driven loop computes the bit-by-bit polynomial checksum continued from the seed |
| Crc.ChecksumConcat | src/shared/esc/crc.ts:18-28 | passing a result on as seed gives the checksum of the concatenated chunks |
| Crc.UpdateCrc32 | src/local-runtime/mavlink/MavlinkFtp.ts:103-107 | the table-driven CRC32 step loop equals the bitwise reflected CRC continued from the state |
| Crc.Crc32File | src/local-runtime/mavlink/MavlinkFtp.ts:115-131 | reading the file in pieces of any sizes gives the checksum of the whole file |
| Crc.NibbleIsTable | src/local-runtime/mavlink/codec.ts:83-87 | the nibble trick equals eight reflected register steps for every byte value: both are linear and agree on single bits |
| Crc.X25Crc | src/local-runtime/mavlink/codec.ts:81-92 | the loop over a trimmed range plus the extra byte equals the bitwise reflected CRC of exactly those bytes |
| Crc.AdjacentErrorsDetected | src/shared/esc/crc.ts:22-28 | two equal-length inputs that differ only within two neighbouring bytes never share a checksum, for any of the three codes |
| CrcRegisters.StepsInjective | src/shared/esc/crc.ts:11-13 | running the register is injective, so a difference never dies out |
| Crc.PairDetermined | src/shared/esc/crc.ts:22-28 | what two neighbouring bytes make of a 16-bit or wider register determines both of them, whatever follows |
| EscFrames.ResidueZeroExactly | src/local-runtime/esc/fourWay.ts:119-133 | a frame has residue zero if and only if its last two bytes are the checksum of the bytes before them |
| EscFrames.FindFourWayResponseStart | src/local-runtime/esc/fourWay.ts:135-140 | the search returns the first start marker, or none if there is none |
| EscFrames.FourWayRoundTrip | src/local-runtime/esc/fourWay.ts:99-133 | a response frame behind any bytes without a start marker and before any further bytes is found, measured and decoded to its command, address, 1 to 256 parameters (0 standing for 256) and ack |
| EscFrames.FourWayProbeStable | src/local-runtime/esc/fourWay.ts:100-106 | once the length probe answers it answers the same for every extension of the buffer |
| EscFrames.FourWayRejectsAdjacentErrors | src/local-runtime/esc/fourWay.ts:109-133 | a frame corrupted within two neighbouring bytes other than the marker and the length is rejected |
| EscFrames.EncodeFourWay | src/local-runtime/esc/fourWay.ts:70-87 | exactly the requests with 1 to 256 parameters are built, byte for byte the wire layout with its checksum |
| EscFrames.RequestRecovered | src/local-runtime/esc/fourWay.ts:70-87 | a receiver reads command, address and parameters back from a request, and the whole frame has residue zero |
| EscFrames.ComputeMspChecksum | src/local-runtime/esc/msp.ts:24-29 | the loop is the exclusive-or of size, command and payload |
| EscFrames.FindMspResponseStart | src/local-runtime/esc/msp.ts:89-96 | the search returns the first response marker, or none exactly if there is none |
| EscFrames.EncodeMspRequest | src/local-runtime/esc/msp.ts:32-45 | requests up to 255 payload bytes are built as the MSP v1 frame, longer ones refused |
| EscFrames.MspRoundTrip | src/local-runtime/esc/msp.ts:60-87 | a response behind any bytes without a marker is found, measured and decoded to its command, payload and error direction |
| EscFrames.MspProbeStable | src/local-runtime/esc/msp.ts:60-65 | once the length probe answers it answers the same for every extension of the buffer |
| EscFrames.Transaction.Pump | src/local-runtime/esc/ArduPilotRawTransport.ts:205-234 | after every evaluation the outcome is the judgement of all bytes received so far, echo comparison included |
| EscFrames.Transaction.OnData | src/local-runtime/esc/ArduPilotRawTransport.ts:205-234 | new bytes are judged together with everything buffered; a finished transaction ignores them |
| EscFrames.ConcatChunks | src/local-runtime/esc/ArduPilotRawTransport.ts:286-297 | the copy loop concatenates the chunks |
| EscFrames.ChunkingIrrelevant | src/local-runtime/esc/ArduPilotRawTransport.ts:205-234 | any two ways of cutting the same bytes into chunks end in the same outcome, in bridged and in direct mode |
| EscFrames.TransactionRecovers | src/local-runtime/esc/ArduPilotRawTransport.ts:205-234 | whatever the chunks, a transaction yields exactly the frame that follows the echo and the leading junk |
| MavlinkFrames.NextMagicIsFirst | src/local-runtime/mavlink/codec.ts:281-287 | the next start byte of either version is the first one at or after the position |
| MavlinkFrames.NothingLost | src/local-runtime/mavlink/codec.ts:377-417 | for any bytes: the pieces taken by the framing decisions followed by what stays buffered are the input |
| MavlinkFrames.RestIsShort | src/local-runtime/mavlink/codec.ts:334-339 | at most 279 bytes stay buffered whatever arrived, beginning with a start byte, and nothing more can be decided about them |
| MavlinkFrames.EventsAreTruthful | src/local-runtime/mavlink/codec.ts:377-417 | a delivered packet has its header's length, a registered id and a matching checksum; a rejected one is well-framed but unregistered |
| MavlinkFrames.ChunkedStreamDelivered | src/local-runtime/mavlink/codec.ts:377-417 | a stream of good packets cut into any chunks comes out as exactly those packets in order with nothing skipped, corrupt or left over |
| MavlinkFrames.PrefixDelivered | src/local-runtime/mavlink/codec.ts:334-339 | at every moment of such a stream the packets completed so far have been delivered and the buffer is a proper beginning of the next |
| MavlinkChunking.CutInvisible | src/local-runtime/mavlink/codec.ts:384-395 | on arbitrary bytes, if nothing is abandoned at the cut, deliveries, rejections, checksum errors, garbage count and rest are those of the uncut bytes |
| MavlinkChunking.CutInvisibleExactly | src/local-runtime/mavlink/codec.ts:384-395 | a cut changes nothing whatever follows it if and only if no incomplete packet with an unknown id was abandoned before it |
| MavlinkChunking.KnownIdsNeverAbandon | src/local-runtime/mavlink/codec.ts:388-395 | if every id is registered nothing is ever abandoned, so chunking is invisible for all bytes |
| MavlinkChunking.ChunkingCanShow | src/local-runtime/mavlink/codec.ts:388-395 | otherwise chunking shows: one unknown packet carrying a complete good packet is rejected whole in one chunk and yields the inner packet in two |
| MavlinkSerializer.SerializeMessage | src/local-runtime/mavlink/codec.ts:180-219 | the buffer built in place, cut after its last non-zero payload byte in version 2, is header, truncated payload and checksum |
| MavlinkSerializer.CutTrailingZeros | src/local-runtime/mavlink/codec.ts:211-215 | the loop stops at the last non-zero byte but keeps one byte, and writes that length into the header; version 1 is left alone |
| MavlinkSerializer.SerializedRoundTrip | src/local-runtime/mavlink/codec.ts:167-219 | every serialised packet is good, its header fields read back, and its payload zero-padded to full length is the original payload |
| MavlinkSerializer.V1DropsHighIdBits | src/local-runtime/mavlink/codec.ts:192-198 | a version 1 header reads back the id if and only if the id is below 256; the serialiser does not refuse larger ones |
| Watermarks.RememberedOrForgotten | src/local-runtime/mavlink/codec.ts:495-501 | the last acceptance of a key is still in the table if and only if fewer than 256 other keys were accepted since, and then exactly those stand behind it |
| Watermarks.AcceptedIncrease | src/local-runtime/mavlink/codec.ts:490-501 | accepted timestamps of a key strictly increase as long as fewer than 256 other keys are accepted in between |
| Watermarks.WatermarkGone | src/local-runtime/mavlink/codec.ts:495-501 | the watermark is gone exactly when 256 other keys have been accepted |
| CodecPolicy.RunKeepsGuard | src/local-runtime/mavlink/codec.ts:440-508 | over any run the watermark table is the one the history of acceptances determines, every acceptance was above its watermark, and the tracking collections hold at most 256 entries |
| CodecPolicy.DeliveredExactlyIf | src/local-runtime/mavlink/codec.ts:440-508 | a packet is delivered if and only if nothing speaks against it: an unknown flag; with signing on, an unsigned packet where signatures are mandatory or from a source known to sign, a signed one with a wrong signature, from the far future, at or below the watermark of its key or, without one, too old; otherwise it is only counted as rejected and at most a signing source is remembered |
| SigningPolicy.RememberedSources | src/local-runtime/mavlink/codec.ts:446-523 | over any run, resets included, the sources remembered as signing are the last 256 newly found ones, a source being found by a right signature and supported flags even where its packet is then refused |
| SigningPolicy.RememberedUntil | src/local-runtime/mavlink/codec.ts:515-523 | so a source found to sign is remembered exactly until 256 further sources have been found |
| SigningPolicy.DowngradeRefused | src/local-runtime/mavlink/codec.ts:458-473 | and until then every unsigned packet of it is refused: nothing delivered, one more counted as rejected |
| SigningPolicy.DeliveredExactlyWhen | src/local-runtime/mavlink/codec.ts:440-508 | after any run from the start the next packet is delivered if and only if the history permits it, stated on the packets heard alone: which sources have proved to sign, and the stamps delivered |
| SequenceNumbers.CountersTell | src/local-runtime/mavlink/codec.ts:525-549 | for any interleaving of at most 256 sources the counters say exactly how many packets were skipped, repeated and overtaken |
| CodecPolicy.EveryByteAccounted | src/local-runtime/mavlink/codec.ts:377-417 | bytes taken are garbage or frame bytes, packets taken are received or rejected, and every received one was handed on |
| MavlinkSession.MavlinkCodecSession.Write | src/local-runtime/mavlink/codec.ts:334-339 | the session ends exactly where the framing events of buffered-plus-new bytes take it, holds exactly the undecided rest, and never reaches the overflow discard |
| MavlinkSession.MavlinkCodecSession.Drain | src/local-runtime/mavlink/codec.ts:377-417 | the loop carries out all decisions about the buffer, in order, and terminates |
| MavlinkSession.MavlinkCodecSession.FindCompleteFrame | src/local-runtime/mavlink/codec.ts:419-438 | the search finds the first complete good packet lying wholly in the buffer |
| MavlinkSession.MavlinkCodecSession.HandleFrame | src/local-runtime/mavlink/codec.ts:440-508 | one packet is delivered and counted as received if and only if the signing policy lets it pass, and otherwise counted as rejected; a source whose signature is right is remembered afterwards |
| MavlinkSession.MavlinkCodecSession.AccountSequence | src/local-runtime/mavlink/codec.ts:525-549 | sequence distances modulo 256 are counted as duplicate, lost or out of order |
| MavlinkSession.MavlinkCodecSession.Serialize | src/local-runtime/mavlink/codec.ts:341-358 | packets carry consecutive sequence numbers and, when signed, a stamp one past the last or the clock |
| MavlinkSession.MavlinkCodecSession.Reset | src/local-runtime/mavlink/codec.ts:360-368 | everything returns to its initial value except replay watermarks and known signing sources |
| MavlinkSession.MavlinkCodecSession.WriteAll | src/local-runtime/mavlink/codec.ts:334-417 | full round trip: packets in any chunks at any pace are all delivered in order with no garbage, checksum error or rejection, unsigned or as one signed stream |
| MavlinkEndToEnd.SendAll | src/local-runtime/mavlink/codec.ts:341-358 | sending changes only the counters of the sender; packets carry consecutive numbers modulo 256 and rising stamps |
| MavlinkEndToEnd.Deliver | src/local-runtime/mavlink/codec.ts:334-417 | sender to receiver: messages one session serialises, cut into any chunks, come out of another session in order with their ids and their payloads, unsigned, or signed when the first stamp is above what the receiver remembers and no stamp too far ahead of its clock; no garbage, checksum error or rejection is counted |
| MavlinkSession.SentIsProper | src/local-runtime/mavlink/codec.ts:262-279 | a signed packet made by one session is good, properly signed and readable for any session sharing the key |
| MavlinkSession.StampsIncrease | src/local-runtime/mavlink/codec.ts:341-354 | whatever the clock does, stamps between resets rise strictly |
| MavlinkSession.ResetMayReplay | src/local-runtime/mavlink/codec.ts:360-364 | a reset forgets the last stamp: the next packet is newer if and only if the clock has passed that stamp, and it is refused if and only if it has not, or the signature is wrong, or the stamp is too far ahead |
| MavlinkSession.BytesConserved | src/local-runtime/mavlink/codec.ts:334-417 | bytes fed are garbage, frame bytes or still buffered; packets taken are received or rejected |
| MavlinkSession.ReplaysRefused | src/local-runtime/mavlink/codec.ts:474-494 | in every reachable state accepted stamps of a key rise, and a stamp at or below a remembered watermark is refused |
| Intervals.SubtractInterval | src/local-runtime/mavlink/MavlinkFtp.ts:201-217 | the loop removes the range from every interval |
| Intervals.SubtractCovers | src/local-runtime/mavlink/MavlinkFtp.ts:201-217 | a byte is missing afterwards if and only if it was missing and lies outside the removed range |
| Intervals.SubtractKeepsProper | src/local-runtime/mavlink/MavlinkFtp.ts:201-217 | the list stays sorted, disjoint, non-empty piecewise and inside its bounds |
| Intervals.SubtractRemaining | src/local-runtime/mavlink/MavlinkFtp.ts:201-221 | the count of missing bytes falls by exactly the overlap, no overlap means no change, and at most one interval is added |
| Intervals.RemainingCounts | src/local-runtime/mavlink/MavlinkFtp.ts:219-221 | the sum of lengths is the number of missing bytes |
| PartFiles.PartFile.WriteChunk | src/local-runtime/mavlink/MavlinkFtp.ts:734-767 | a chunk leaves the missing list and joins the queued writes, clipped to the expected size; the result counts new bytes; at a limit nothing changes; true chunks keep the pending file equal to the remote one outside the missing ranges |
| PartFiles.PartFile.CompleteWrites | src/local-runtime/mavlink/MavlinkFtp.ts:760-763 | queued writes reach the file in order and do not change what the file will be |
| PartFiles.PartFile.TruncateTo | src/local-runtime/mavlink/MavlinkLogTransfer.ts:622-626 | the expected size only shrinks, and exactly the tail beyond it stops being missing |
| FtpDownload.BurstPass | src/local-runtime/mavlink/MavlinkFtp.ts:881-944 | unless a resource limit is hit, a burst ends with exactly the missing list and frame count that its frames of this session determine; it never makes a received byte missing and handles at most one frame beyond its budget |
| FtpDownload.BurstFills | src/local-runtime/mavlink/MavlinkFtp.ts:906-932 | a burst that streams the first missing range in full frames, the last one marked, fills exactly that range within the frame budget |
| FtpDownload.BurstUses | src/local-runtime/mavlink/MavlinkFtp.ts:881-944 | a burst uses its replies exactly up to the first moment at which it is over, by its marker, its budget or nothing left, and a byte is missing afterwards if and only if it was and no reply used has brought it |
| FtpDownload.GapFillPass | src/local-runtime/mavlink/MavlinkFtp.ts:947-1012 | a pass asks for the missing ranges in pieces of at most 200 bytes, in order, up to the first answer that is not data, and ends with exactly the missing list, number of requests and failure its answers determine; against a server that answers each read with the requested slice it leaves nothing missing |
| FtpDownload.PiecesAreMissing | src/local-runtime/mavlink/MavlinkFtp.ts:947-1012 | the pieces asked for cover exactly the missing bytes, in order |
| FtpDownload.AsksStop | src/local-runtime/mavlink/MavlinkFtp.ts:947-1012 | a pass asks on as long as it is answered with data, and no further |
| FtpDownload.AsksBring | src/local-runtime/mavlink/MavlinkFtp.ts:947-1012 | a byte is missing after a pass if and only if it was and none of its answers has brought it |
| FtpDownload.Run | src/local-runtime/mavlink/MavlinkFtp.ts:768-819 | against any peer the loop ends within 6 times the size plus 11 passes, it stalls only after five passes in a row brought nothing and never goes on after ten; success means nothing missing and all writes done, and if every reply of the peer to our session is a true slice the file is the remote file; a server that answers reads is never given up on, and if only small gaps are left it alone brings the whole file |
| FtpDownload.RunPasses | src/local-runtime/mavlink/MavlinkFtp.ts:768-819 | the passes keep every byte outside the missing ranges equal to the remote file as long as the replies are true |
| FtpClient.DownloadFile | src/local-runtime/mavlink/MavlinkFtp.ts:707-856 | a file is kept only if its checksum is the reported one; when a transfer from a truthful peer succeeds, exactly the remote file is kept if the reported checksum is that of the remote file, and nothing otherwise; files of at most the gap-fill size are always obtained from a server that answers reads; a kept file never differs from the remote one just within two neighbouring bytes |
| FtpClient.AdvanceIsMaximum | src/local-runtime/mavlink/MavlinkFtp.ts:311-315 | the 16-bit rule is the maximum of two counters that never wrap, while they are less than half the range apart |
| LogDownload.TakeData | src/local-runtime/mavlink/MavlinkLogTransfer.ts:733-767 | unless a resource limit is hit, missing list, size and the end of the pass are exactly what the chunk determines: it is written and, if short below the requested end, truncates the log; the pass ends when the request is filled; a true chunk keeps the file exact outside the missing ranges |
| LogDownload.ChunkMeans | src/local-runtime/mavlink/MavlinkLogTransfer.ts:733-767 | after a chunk exactly its bytes, clipped to the size, are off the missing list; a short chunk below the end of the request and below the size becomes the size and takes everything beyond off the list |
| LogDownload.ChunkEnds | src/local-runtime/mavlink/MavlinkLogTransfer.ts:733-767 | a chunk ends the pass if and only if it is such a marker or nothing of the requested range is missing any more |
| LogDownload.DataPass | src/local-runtime/mavlink/MavlinkLogTransfer.ts:694-781 | a pass ends with exactly the missing list, size and frame count its chunks determine; if the requested range is streamed it is filled, or the true end found and nothing left missing; true chunks keep the file exact |
| LogDownload.Run | src/local-runtime/mavlink/MavlinkLogTransfer.ts:628-643 | against any peer the loop ends within 5 times the size plus 5 passes, it stalls exactly when five passes in a row brought nothing, and the size never grows; success with true chunks saves the beginning of the log, and its size is the true one capped by the advertised one if and only if no pass ended with a short chunk below that, so always if short chunks mark the true end; a peer that streams what is asked succeeds with the right size and content |
| LogDownload.SizeIsLeast | src/local-runtime/mavlink/MavlinkLogTransfer.ts:756-765 | the size after any number of passes is the least of the advertised one and the short chunks that ended them |
| LogDownload.SizeIsTrueExactly | src/local-runtime/mavlink/MavlinkLogTransfer.ts:756-765 | a size not above the true one is the true one capped by the advertised one if and only if no pass ended with a short chunk below it |
| LogDownload.LateShortChunk | src/local-runtime/mavlink/MavlinkLogTransfer.ts:756-765 | the size can be wrong with true chunks: a repeated answer to an earlier request cuts a 270-byte log to 50 while nothing is missing |
| LogList.ListCollector.OnEntry | src/local-runtime/mavlink/MavlinkLogTransfer.ts:410-440 | a reply is taken into account unless the budget of frames without progress is used up; the listing ends exactly when the replies so far complete it, with the first entry heard for each id; the budget of all frames can never run out |
| LogList.ListCollector.RequestWindow | src/local-runtime/mavlink/MavlinkLogTransfer.ts:383-392 | a request spans exactly from the first to the last advertised id still missing, or the whole window; a refusing link ends the listing |
| LogList.ListCollector.OnQuiet | src/local-runtime/mavlink/MavlinkLogTransfer.ts:394-408 | at most three further requests; the timer is armed again even when the link refused and the listing is over |
| LogList.CollectList | src/local-runtime/mavlink/MavlinkLogTransfer.ts:342-445 | against any peer outcome and requests written are those of the event run; what is listed was heard and completes the list, and a listing ends at the latest with the third quiet timer or the budget; from a truthful vehicle it is exactly its list of the window; in calm conditions it succeeds if and only if every log of the window was heard of |
| LogList.TruthfulListing | src/local-runtime/mavlink/MavlinkLogTransfer.ts:366-381 | truthful replies in any order and number complete the list exactly when every log of the window has been heard of and there is one, or there are no logs at all, and the result is then the vehicle's list |
| LogList.GatheredIsHeard | src/local-runtime/mavlink/MavlinkLogTransfer.ts:423-425 | each id of the window that was heard of is listed, with an entry heard for it, and nothing else |
| LogList.EmptyReplyEndsList | src/local-runtime/mavlink/MavlinkLogTransfer.ts:377-381 | one reply counting no logs completes any list, however much is missing |
| LogList.RefusedListStillAsks | src/local-runtime/mavlink/MavlinkLogTransfer.ts:383-444 | the shortest case: after a refused first request three requests are written although the operation has ended |
| LogList.WritesLateExactly | src/local-runtime/mavlink/MavlinkLogTransfer.ts:383-444 | over all event sequences a request is written after the end if and only if a quiet timer fires whose request is taken, an earlier request was refused, attempts remain and no cancel came before |
| LogList.RunErase | src/local-runtime/mavlink/MavlinkLogTransfer.ts:798-840 | an erase is confirmed if and only if one of five polls is an empty list and all before it timed out or still had logs; the two failures are told apart exactly |
| LogList.EmptyListIsZeroLogs | src/local-runtime/mavlink/MavlinkLogTransfer.ts:811-819 | a poll with an empty list means the vehicle counted no logs and no reply carried one |
| DevicePaths.SiblingsApart | src/local-runtime/mavlink/downloadLimits.ts:79-101 | what lies under one safe name is not under another name of the same directory |
| DevicePaths.JoinSafeExactly | src/local-runtime/mavlink/downloadLimits.ts:79-101 | a name without a slash joined to a safe directory gives a safe path if and only if it is not the way up, has no control character and leaves the path at most 200 long |
| DeleteExpansion.DeletePlan.ParseListChunk | src/local-runtime/mavlink/MavlinkFtp.ts:573-610 | a page is split into exactly its usable entries and its unsafe names, in order |
| DeleteExpansion.JudgeReads | src/local-runtime/mavlink/MavlinkFtp.ts:573-610 | a record names a directory, or a file up to its last tab; the two relative directories, empty names and other kinds are passed over, and a name is usable if and only if it is 1 to 100 long without slashes and control characters |
| DeleteExpansion.DeletePlan.CollectDirectory | src/local-runtime/mavlink/MavlinkFtp.ts:526-561 | from a truthful peer the listing, usable entries and unsafe names alike, is complete unless it reaches the entry cap; small directories never fail |
| DeleteExpansion.DeletePlan.ExpandDeleteTarget | src/local-runtime/mavlink/MavlinkFtp.ts:1072-1109 | a success appends exactly the post-order traversal of safe names and reports exactly the unsafe names passed over, no directory is at depth 6 or deeper, and the list exceeds 512 by at most one per level; from a truthful peer with directories below the listing cap it succeeds if and only if the target is safe, shallow and its last leaf still has a place |
| DeleteExpansion.DeletePlan.ExpandSelection | src/local-runtime/mavlink/MavlinkFtp.ts:1034-1045 | the whole plan is the traversals of the selection, has at most 518 entries and names nothing outside it; from such a peer it succeeds if and only if every selected target has its place |
| DeleteExpansion.ExpandableExactly | src/local-runtime/mavlink/MavlinkFtp.ts:1072-1109 | the expansion of a target fits if and only if its names and depth are permitted and the last leaf it adds comes before index 512; enclosing directories added after that leaf are not limited |
| DeleteExpansion.PlanBeyondLimit | src/local-runtime/mavlink/MavlinkFtp.ts:1072-1109 | a concrete directory whose plan is accepted with 518 entries: its last leaf has index 511 |
| DeleteExpansion.StaysUnderRoot | src/local-runtime/mavlink/MavlinkFtp.ts:1072-1109 | every planned path is the selected one or lies beneath it |
| DeleteExpansion.ContentsComeFirst | src/local-runtime/mavlink/MavlinkFtp.ts:1098-1108 | nothing inside a directory comes after the directory, if names differ within each directory |
| CommandCells.RunIsAttributed | src/local-runtime/mavlink/MavlinkBridge.ts:1753-1803 | in every run of requests, timers and ACKs the three states of an id exclude each other and an ACK in time is credited to the request it answers or reported as stale |
| CommandCells.RunFromStart | src/local-runtime/mavlink/MavlinkBridge.ts:2913-2962 | the same from an empty bridge, emergency disarms and refused writes included |
| CommandCells.StepKeeps | src/local-runtime/mavlink/MavlinkBridge.ts:2986-3122 | every step keeps: one state at a time, attempts within bounds, timer not after the deadline, and every packet still answerable owned by the waiting request or outlived by the mark |
| CommandCells.DeadlineStands | src/local-runtime/mavlink/MavlinkBridge.ts:2986-2991 | a waiting request keeps the deadline of its first packet |
| CommandCells.PastDeadlineEnds | src/local-runtime/mavlink/MavlinkBridge.ts:3010-3022 | at or after the deadline a timer or any ACK, IN_PROGRESS included, ends the wait |
| CommandCells.PromptRunsReleaseInTime | src/local-runtime/mavlink/MavlinkBridge.ts:3010-3022 | while timers fire on time nothing is waiting after its deadline |
| CommandRuns.WaitGoesOnExactly | src/local-runtime/mavlink/MavlinkBridge.ts:3010-3122 | what each event does to a waiting request: it goes on waiting with its attempt and deadline, an IN_PROGRESS moving the timer to four timeouts but not past the deadline and a temporary rejection raising the confirmation, or its wait ends with a settling window after a final ACK and an uncertain one after a timeout |
| CommandRuns.NobodyWaits | src/local-runtime/mavlink/MavlinkBridge.ts:2913-3058 | what each event does where nobody waits: a request on a free id begins to wait, a final answer within a window opens the settling window anew, an emergency lengthens the uncertain window, and nothing else counts |
| CommandRuns.WrittenExactly | src/local-runtime/mavlink/MavlinkBridge.ts:2986-3122 | an event writes exactly the packet of an accepted request, or one repetition with the next attempt, or nothing |
| CommandRuns.WaitsExactly | src/local-runtime/mavlink/MavlinkBridge.ts:2986-3122 | over every run a request waits exactly from the event that wrote it on a free id until the first event that ends its wait: a timeout without attempts or time left, a final ACK, or a refused write |
| CommandRuns.CreditedExactly | src/local-runtime/mavlink/MavlinkBridge.ts:1753-1803 | in every run from the start an answer in time is credited to its request exactly while that request waits, and reported as stale exactly otherwise |
| CommandCells.LateAnswerIsMiscredited | src/local-runtime/mavlink/MavlinkBridge.ts:3060-3070 | the time bound is needed: an answer two link timeouts late is credited to the next request |
| Commands.CommandTransactions.SendCommand | src/local-runtime/mavlink/MavlinkBridge.ts:2913-2962 | the id ends as the rules say, all other ids are untouched, and exactly the packet of the request is written, with confirmation 0, if the outcome is sent |
| Commands.CommandTransactions.EnqueuePendingCommand | src/local-runtime/mavlink/MavlinkBridge.ts:3024-3058 | busy, uncertain and settling ids refuse; otherwise the request is written |
| Commands.CommandTransactions.TransmitPendingCommand | src/local-runtime/mavlink/MavlinkBridge.ts:2986-3007 | one more attempt, the deadline set once; a refused write ends the wait without a settling window |
| Commands.CommandTransactions.HandleCommandTimeout | src/local-runtime/mavlink/MavlinkBridge.ts:3100-3122 | a request with attempts and time left is written once more with the next attempt and goes on waiting if the link takes it; otherwise its id is uncertain and nothing is written |
| Commands.CommandTransactions.HandleCommandAck | src/local-runtime/mavlink/MavlinkBridge.ts:1753-1803 | an ACK is reported to the waiting request, or as stale within a window; IN_PROGRESS keeps the request waiting with attempt and deadline and moves its timer, a temporary rejection with attempts left writes exactly one further packet with the confirmation one higher, and any other ACK ends the wait with the settling window; nothing else is written |
| ParamDownload.ParamDownloader.HandleParamValue | src/local-runtime/mavlink/MavlinkBridge.ts:2427-2461 | completion is announced exactly when the received set is all of 0 to expected minus 1; the first usable count stands and an excessive one fails; exactly a new index clears the stall count and puts the retry off |
| ParamDownload.ParamDownloader.RetryMissingParams | src/local-runtime/mavlink/MavlinkBridge.ts:3968-4036 | a retry fails at the deadline, the read budget or the twelfth stall, and otherwise asks for one batch of missing indices from the cursor; reads stay below 4096 plus a batch and retries are paid for by received indices |
| ParamDownload.EveryGapIsAsked | src/local-runtime/mavlink/MavlinkBridge.ts:4000-4024 | with no reply in between every missing index is asked for within ceil(missing / batch) batches, from any cursor |
| ParamDownload.AllAskedBeforeLimit | src/local-runtime/mavlink/MavlinkBridge.ts:3984-4024 | so up to twelve batches of missing indices are all asked for before the retry limit |
| ParamDownload.ChaseGaps | src/local-runtime/mavlink/MavlinkBridge.ts:3968-4036 | the same of a running download: twelve retries before the deadline and within the read budget write a read for every missing index, lose nothing received and leave the download active |
| ParamSets.ParamSetQueue.SendParamSet | src/local-runtime/mavlink/MavlinkBridge.ts:3640-3684 | refused, busy, full and rejected writes are answered at once, others wait; every write is waiting or answered, never both, and answered once |
| ParamSets.ParamSetQueue.HandleParamValue | src/local-runtime/mavlink/MavlinkBridge.ts:2406-2425 | a waiting write is confirmed if and only if type and value match the report |
| ParamSets.ParamSetQueue.HandleTimeout | src/local-runtime/mavlink/MavlinkBridge.ts:3737-3752 | at most three transmissions, then the last known reason |
| ParamSets.ParamSetQueue.CancelAll | src/local-runtime/mavlink/MavlinkBridge.ts:1032-1047 | after a cancellation every write asked for has been answered |
| VerifiedWrites.VerifiedWrite.OnAnswer | src/local-runtime/mavlink/MavlinkBridge.ts:3256-3307 | each answer has exactly one follow-up, the next entry, the undoing of the entry before, or the completion, which fires at most once; nothing is started once the context is lost, and confirmed entries hold the new or, while undoing, the old value |
| VerifiedWrites.RestoredExactlyWhen | src/local-runtime/mavlink/MavlinkBridge.ts:3253-3307 | a clean failure leaves every confirmed parameter at its earlier value; the whole transaction left no trace if and only if the failed entry did not |
| VerifiedWrites.Transact | src/local-runtime/mavlink/MavlinkBridge.ts:3253-3307 | every write goes through the write queue with its up to three transmissions; against any vehicle the transaction ends within twice as many writes as entries and leaves nothing waiting in the queue; it succeeds if and only if every entry was allowed, free and echoed as requested in a safe context, and is lost exactly when the context was unsafe at the start or at an answer; a clean failure leaves everything but the failed entry at its earlier value, and no other parameter ever changes |
| VerifiedWrites.WriteThrough | src/local-runtime/mavlink/MavlinkBridge.ts:3640-3752 | one write is answered exactly once, accepted exactly when one of its up to three transmissions was taken and echoed with the requested type and value, and the queue is as before |
| VerifiedWrites.ConfirmedMeans | src/local-runtime/mavlink/MavlinkBridge.ts:3686-3752 | a confirmed write is held by the vehicle and its last transmission was reported with the requested type; an unconfirmed one used all three transmissions or met a refusing link |
| Airframe.ApplyAirframe | src/local-runtime/mavlink/MavlinkBridge.ts:3409-3547 | refused exactly when something stands in the way, naming the first such thing, and then nothing is written; a restart is sent if and only if both writes, transmissions included, were echoed as requested in a safe context on a PX4 vehicle that is still safe and the link takes it; a clean failure leaves at least the parameter that did not fail at its earlier value; no other parameter changes |
| VerifiedWrites.FailedEntryStays | src/local-runtime/mavlink/MavlinkBridge.ts:3292-3300 | a write carried out without an echo is reported as a clean failure and stays |
| CalibrationRuns.EverySessionIsHonest | src/local-runtime/mavlink/CalibrationSession.ts:259-563 | in every interleaving the outcome is verified if and only if some event of the run, taken in an open session, was the flight controller's report of that very outcome; done means verified, an ended session has no timer, snapshots are numbered without gaps and tell one outcome, and the start command is sent at most once |
| CalibrationRuns.VerifiedWasReported | src/local-runtime/mavlink/CalibrationSession.ts:259-563 | from any open state: verified at the end of a run if and only if one of its events reported that outcome: a final line, success or failure of the interactive flow, a failed compass or the report completing the saving |
| CalibrationRuns.SavingWasReported | src/local-runtime/mavlink/CalibrationSession.ts:482-534 | when a compass report ends a session as done, every expected compass among the first eight has been reported as saved, and the user had accepted before over a link that took the command |
| CalibrationSafety.StepKeeps | src/local-runtime/mavlink/CalibrationSession.ts:182-563 | every input and timer keeps the invariant: done means verified, no timer after the end, gapless numbering, one start command, a watchdog while open |
| CalibrationRuns.EndIsFinal | src/local-runtime/mavlink/CalibrationSession.ts:701-714 | no input changes an ended session's outcome, sends a command or arms a timer |
| CalibrationRuns.AckNeverVerifies | src/local-runtime/mavlink/CalibrationSession.ts:259-319 | an ACK never yields a verified outcome, and a refusing one only ever a failure |
| CalibrationOutcomes.EndsExactly | src/local-runtime/mavlink/CalibrationSession.ts:182-563 | over every session from any open state: it has ended if and only if some event of the run decides its end, and then with the phase, verification, code and restart demand which the first such event decides |
| CalibrationOutcomes.OneShotAcceptedExactly | src/local-runtime/mavlink/CalibrationSession.ts:286-293 | over every run from the start a one-shot calibration is accepted if and only if an event of the run, in an open state, is an accepting ACK of its start command; then on the word of the ACK alone |
| CalibrationOutcomes.AckMeans | src/local-runtime/mavlink/CalibrationSession.ts:259-319 | what each ACK achieves: an accepted one-shot start ends as accepted, an accepted compass cancel as cancelled, a PX4 cancel never ends the session, the first acceptance of an accept opens a window of 5 seconds and later ones change nothing |
| CalibrationOutcomes.WatchedExactly | src/local-runtime/mavlink/CalibrationSession.ts:204-258 | which watchdogs run, and until when, after any input that leaves the session open |
| CalibrationOutcomes.SilenceEnds | src/local-runtime/mavlink/CalibrationSession.ts:204-258 | over every started session that is not one-shot the watchdogs run from its start and from its last sign of life |
| CalibrationProgress.SidesAreTold | src/local-runtime/mavlink/CalibrationSession.ts:322-380 | on PX4, after the first line and whatever came since, an open session shows each side of the calibration with the mark given to it last and the last percentage |
| CalibrationProgress.PositionsAreTold | src/local-runtime/mavlink/CalibrationSession.ts:387-419 | over every open interactive session the side asked for last is active, the sides asked for before are done, the others wait |
| CalibrationProgress.ProgressRecorded | src/local-runtime/mavlink/CalibrationSession.ts:448-480 | a progress message sets percentage, status and attempt of its own compass, keeps its report and touches no other; the first mask stays |
| CalibrationProgress.ReportRecorded | src/local-runtime/mavlink/CalibrationSession.ts:482-534 | a report sets status and saving of its own compass, one not heard of before counting as complete, and touches no other |
| CalibrationProgress.ReadyExactly | src/local-runtime/mavlink/CalibrationSession.ts:513-534 | a session becomes ready to be accepted exactly when every named compass among the first eight has reported success |
| CalibrationProgress.MeanIsBetween | src/local-runtime/mavlink/CalibrationSession.ts:617-624 | the percentage shown lies between the least and the greatest of the expected compasses |
| CalibrationRuns.EndsInTime | src/local-runtime/mavlink/CalibrationSession.ts:204-208 | a started session that is not one-shot has ended by its overall limit plus 30 seconds while timers fire on time |
| CalibrationRuns.VacuousMask | src/local-runtime/mavlink/CalibrationSession.ts:606-615 | the completeness test holds with no compass at all if and only if the mask is non-zero with its eight low bits clear |
| CalibrationRuns.TestIsRightExactly | src/local-runtime/mavlink/CalibrationSession.ts:606-615 | the completeness test agrees with "every compass named by the mask is good" in all states if and only if the mask is below 256 |
| CalibrationRuns.DoneWithoutSaving | src/local-runtime/mavlink/CalibrationSession.ts:482-534 | a run from the start in which a compass numbered 8 to 31 reports without a mask ends as done and verified although no compass was reported as saved |
| CalibrationSessions.CalibrationSession.HandleCommandAck | src/local-runtime/mavlink/CalibrationSession.ts:259-319 | the invariant is kept; the session ends exactly as the ACK decides: an accepted one-shot start as accepted, a refused start as failed, an accepted compass cancel as cancelled, a refused accept as failed; otherwise it stays open and only its watchdogs and the confirmation window move |
| CalibrationSessions.CalibrationSession.HandleStatustext | src/local-runtime/mavlink/CalibrationSession.ts:322-380 | the invariant is kept; the session ends exactly with a final line and with the outcome that line names, verified, and sends no command |
| CalibrationSessions.CalibrationSession.HandlePositionRequest | src/local-runtime/mavlink/CalibrationSession.ts:387-419 | the invariant is kept; in the interactive flow only the success and failure messages end the session, verified as done or failed; other kinds and ended sessions change in nothing |
| CalibrationSessions.CalibrationSession.HandleMagProgress | src/local-runtime/mavlink/CalibrationSession.ts:448-480 | the invariant is kept; only a failed compass ends the session, as failed and verified |
| CalibrationSessions.CalibrationSession.HandleMagReport | src/local-runtime/mavlink/CalibrationSession.ts:482-534 | the invariant is kept; the session ends exactly with a failed compass or the report that completes the saving, verified as that says, and sends nothing |
| CalibrationSessions.CalibrationSession.ComputeMagProgress | src/local-runtime/mavlink/CalibrationSession.ts:617-624 | the loop computes the rounded mean over the expected compasses |
| CalibrationSessions.CalibrationSession.FireTimer | src/local-runtime/mavlink/CalibrationSession.ts:762-768 | the invariant is kept; the flush leaves the session open; every other timer ends it as its action says, unverified and without sending: given up with its code, an unconfirmed cancel as cancelled, an unverified accept as accepted with a restart |
| AutotuneRules.ActionsAreReleased | src/local-runtime/mavlink/AutotuneSession.ts:296-336 | in every open session a waiting action has its timer armed, was transmitted at most three times and is at most three action timeouts old, and the session is within its overall limit |
| AutotuneRules.ClaimsAreHonest | src/local-runtime/mavlink/AutotuneSession.ts:182-224 | saved parameters are claimed exactly in the saved phase and never for PX4, ended sessions have no timer, terminal snapshots agree |
| AutotuneRules.SavedOnlyByLine | src/local-runtime/mavlink/AutotuneSession.ts:210-213 | the saved phase is entered by the firmware's saved line and by nothing else |
| AutotuneRules.EndIsFinal | src/local-runtime/mavlink/AutotuneSession.ts:394-405 | a terminal phase is never left and nothing is sent any more |
| AutotuneOutcomes.StepMeans | src/local-runtime/mavlink/AutotuneSession.ts:120-336 | the whole effect of each input on an open session: whether and as what it ends, and otherwise its phase, its claim, the waiting action, what is sent, and when each timer is due |
| AutotuneOutcomes.EndsExactly | src/local-runtime/mavlink/AutotuneSession.ts:120-336 | over every run a session has ended if and only if some event that found it open decides its end, and then in the phase that event decides |
| AutotuneOutcomes.SaveWindowOpensExactly | src/local-runtime/mavlink/AutotuneSession.ts:243-252 | in an open ArduPilot session with no mode change to make a status opens the save window of 15 seconds if and only if it is disarmed, in AutoTune mode, and the tune is completed or being tested |
| AutotuneOutcomes.TuneIsSaved | src/local-runtime/mavlink/AutotuneSession.ts:210-252 | a run from the start through the success line, a disarm and the saved line ends as saved with saved parameters if and only if the disarm was in AutoTune mode, and otherwise as interrupted |
| AutotuneOutcomes.SecondStatusLosesTheSave | src/local-runtime/mavlink/AutotuneSession.ts:226-252 | in the save window a second disarmed status ends the session as interrupted, and the saved line is then ignored |
| AutotuneRules.SuccessKeepsTransition | src/local-runtime/mavlink/AutotuneSession.ts:190-195 | the pending change to test mode survives a success line that frees the action, and the next status in the initial mode switches the mode if and only if it was pending |
| AutotuneRules.AsksAgainUnasked | src/local-runtime/mavlink/AutotuneSession.ts:190-195 | a run from the start that ends with no action waiting and AutoTune mode asked for twice |
| AutotuneSessions.AutotuneSession.RequestAction | src/local-runtime/mavlink/AutotuneSession.ts:271-305 | an action starts exactly when the rules allow it and the link takes it, and then has its timer and one transmission; a refused write releases the lock and sends nothing; the phase stays and the invariant is kept |
| AutotuneSessions.AutotuneSession.HandleActionTimeout | src/local-runtime/mavlink/AutotuneSession.ts:326-335 | an action that waits is sent again with a new timer while the link takes it and fewer than two resends were made; otherwise the session fails with no timer left; without a waiting action nothing changes |
| AutotuneSessions.AutotuneSession.HandleVehicleStatus | src/local-runtime/mavlink/AutotuneSession.ts:226-269 | the invariant is kept; a mode change is sent exactly when one is pending, the vehicle is in the initial mode and the link takes it; the session ends exactly as the status decides (PX4 disarmed below 100 percent, any other disarm but that of a finished tune in AutoTune mode, a discard or an unfinished tune that has left AutoTune mode, a refused write), and otherwise continues with the phase, claim and timers stated, the save window included |
| AutotuneSessions.AutotuneSession.HandleStatustext | src/local-runtime/mavlink/AutotuneSession.ts:182-224 | the invariant is kept; an open ArduPilot session becomes saved exactly by the saved line and ends exactly with a final one; nothing is sent |
| AutotuneSessions.AutotuneSession.HandleCommandAck | src/local-runtime/mavlink/AutotuneSession.ts:164-180 | an open PX4 session completes exactly with an accepting ACK or full progress and fails exactly with a refusing one |
| RadioCalibration.MostMovedChannel | src/local-runtime/mavlink/RadioCalibrationSessionManager.ts:321-330 | the first of the channels with the greatest movement, none exactly if nothing moved |
| RadioCalibration.IsStable | src/local-runtime/mavlink/RadioCalibrationSessionManager.ts:332-339 | stable means at least three samples and no channel spreading more than 20 between any two readings that are there |
| RadioCalibration.RadioSession.HandleRcChannels | src/local-runtime/mavlink/RadioCalibrationSessionManager.ts:92-116 | readings join the recent samples and widen the range of exactly the channels that are there, and only while sampling |
| RadioCalibration.RecentMeans | src/local-runtime/mavlink/RadioCalibrationSessionManager.ts:108-110 | the samples kept are those of the last half second in their order, and of more than twenty the last twenty |
| RadioCalibration.RadioSession.CaptureMovement | src/local-runtime/mavlink/RadioCalibrationSessionManager.ts:300-319 | the function keeps its channel or gets one that moved most among the free ones, its direction is noted and only that channel's range grows; refused exactly when no channel moved far enough; a channel that has dropped out counts as movement and becomes the minimum 0 |
| RadioCalibration.RadioSession.Advance | src/local-runtime/mavlink/RadioCalibrationSessionManager.ts:171-206 | one step at a time, each doing exactly what its kind does and refusals changing nothing; review is reached only with four functions on distinct channels and all others swept; the calibration is handed over at most once |
| RadioCalibration.RadioSession.Channels | src/local-runtime/mavlink/RadioCalibrationSessionManager.ts:341-353 | on every channel the trim lies within the range; at review every primary function has its own channel and every other channel reached both endpoints |
| EscSessionRules.LinkIsOrderly | src/local-runtime/esc/EscSessionManager.ts:265-489 | over every interleaving transports are created, closed once and only then followed by another |
| EscSessionRules.ClosedAtMostOnce | src/local-runtime/esc/EscSessionManager.ts:453-489 | orderly use means no transport is closed more often than it was created |
| EscSessionRules.NextAfterClose | src/local-runtime/esc/EscSessionManager.ts:265-331 | orderly use means that before a transport is created the close of every earlier one has finished |
| EscSessionRules.TimersSpareJobs | src/local-runtime/esc/EscSessionManager.ts:384-513 | neither the idle nor the orphan timer begins a teardown while a job runs, even if armed then |
| EscSessionRules.WhyItEnds | src/local-runtime/esc/EscSessionManager.ts:366-513 | a teardown with a job running has a forcing reason, or follows the end of an expired orphan's job |
| EscSessionRules.NoWriteEverAgain | src/local-runtime/esc/EscSessionManager.ts:183-193 | once the acknowledgement is cleared no settings write is allowed again in that session, reclaim included |
| EscSessionRules.DisconnectClears | src/local-runtime/esc/EscSessionManager.ts:366-395 | losing the owner clears the acknowledgement |
| EscOutcomes.SessionAfter | src/local-runtime/esc/EscSessionManager.ts:265-513 | for every event what the session is afterwards, and that it is gone exactly when its transport has been closed |
| EscOutcomes.ConfirmedExactly | src/local-runtime/esc/EscSessionManager.ts:183-395 | over every history the acknowledgement of a session is in force exactly from the start that gave it until its owner is lost or its teardown begins |
| EscOutcomes.WritersExactly | src/local-runtime/esc/EscSessionManager.ts:183-193 | over every history a client may write settings exactly while it owns the session and the acknowledgement is in force |
| EscOutcomes.TeardownFrees | src/local-runtime/esc/EscSessionManager.ts:453-489 | the two steps of a teardown close the transport once and leave the manager free |
| EscSessions.EscSessionManager.StartSession | src/local-runtime/esc/EscSessionManager.ts:265-331 | a session starts exactly when none is there, the manager lives and the vehicle is safe, and then its transport is created on a free link |
| EscSessions.EscSessionManager.HandleClientDisconnected | src/local-runtime/esc/EscSessionManager.ts:366-395 | when the owner goes the acknowledgement is cleared and no client may write settings; a running job goes on in an orphaned session with its timer, without a job the teardown begins; any other client changes nothing; the invariant is kept |
| EscSessions.EscSessionManager.FinishJob | src/local-runtime/esc/EscSessionManager.ts:427-443 | the job that ended is no longer the active one and any other stays; a teardown begins if and only if the session is an expired orphan; an active session is watched by the idle timer again; the invariant is kept |
| EscSessions.EscSessionManager.ReclaimSession | src/local-runtime/esc/EscSessionManager.ts:341-363 | reclaim succeeds exactly for the orphaned session and its token; the job goes on, the new owner has no acknowledgement |
| EscSessions.EscSessionManager.FinalizeSession | src/local-runtime/esc/EscSessionManager.ts:453-489 | from any stage the session is exiting with the acknowledgement cleared and no timer running, and its job untouched; a second teardown changes nothing |
| DataflashFormats.ParseFormat | src/shared/logs/structuredDataflashDecoder.ts:183-228 | the loop computes offsets up to the first unknown code and whether the format can be decoded |
| DataflashFormats.FieldInside | src/shared/logs/structuredDataflashDecoder.ts:193-212 | every field of a decodable format lies inside the payload |
| DataflashRules.IntegersReadBack | src/shared/logs/structuredDataflashDecoder.ts:140-176 | every integer field code reads back exactly every number of its width and sign from its little-endian bytes, the scaled ones with their divisor |
| DataflashDecoder.SequentialSourceReader.Peek | src/shared/logs/structuredDataflashDecoder.ts:90-105 | the cached reader returns exactly what a direct slice would |
| DataflashDecoder.DecodeLog | src/shared/logs/structuredDataflashDecoder.ts:299-474 | the loop over the cached reader says exactly what the decode of the bytes says, and terminates |
| DataflashHistory.LogTold | src/shared/logs/structuredDataflashDecoder.ts:299-474 | for any bytes the emissions are exactly those the records taken tell by their history alone: boot boundaries where times step back, records with time and elapsed time, parameters that are initial exactly if not named in that boot, events |
| DataflashReadBack.FormatReadsBack | src/shared/logs/structuredDataflashDecoder.ts:183-228 | an announced layout is read back with its name, codes and columns, and can be decoded exactly if every code is known, has its column, and the fields fit |
| DataflashReadBack.RecordReadsBack | src/shared/logs/structuredDataflashDecoder.ts:368-386 | for a payload joined from pieces of the sizes of its codes the value under a column is the value of its piece, of equal columns that of the last, and there are no other values |
| DataflashReadBack.MicrosRead | src/shared/logs/structuredDataflashDecoder.ts:245-251 | a number put into TimeUS is the time of the record, scaled codes in whole units; a negative one is no time |
| DataflashReadBack.MillisRead | src/shared/logs/structuredDataflashDecoder.ts:245-251 | without a usable TimeUS a number put into TimeMS counts a thousandfold; a negative or unsafe one is no time |
| DataflashReadBack.EveryRecordTold | src/shared/logs/structuredDataflashDecoder.ts:368-474 | in a well-formed log every record is told of with its data, time, boot and elapsed time; a named parameter, a message, an event or an error follows it at once, and nothing follows any other record |
| DataflashReadBack.ParameterLogTold | src/shared/logs/structuredDataflashDecoder.ts:299-474 | for a format and its records the parameter of each record has the text put into Name, the time put into TimeUS, and is initial exactly if that name has not come before in that boot |
| DataflashRules.AnyLogDecodes | src/shared/logs/structuredDataflashDecoder.ts:299-474 | for any bytes: position is skipped bytes plus 89 per format frame plus record lengths; sequence numbers run without gaps over records, events and parameters; a boot begins exactly where a timestamp steps back; elapsed time is never negative and never falls within a boot |
| DataflashRules.WholeLogDecodes | src/shared/logs/structuredDataflashDecoder.ts:299-474 | a well-formed log decodes to exactly its records in order with nothing skipped and nothing left |
| DataflashRules.TakeRecordKeeps | src/shared/logs/structuredDataflashDecoder.ts:368-474 | one record frame keeps numbering, counting and time order and adds exactly one record |

## Left out

- React pages, stores, navigation, internationalisation and demo code: user interface.
- Web Serial, Worker messages and the origin-private file system: the link is send and receive steps, a file is an array
  written at offsets; failing file writes and the disk-space check before a download are not modelled.
- MAVLink field tables: a payload is a byte sequence of the length the registry gives, the registry a map from id to
  length and extra checksum byte; encoding of single fields is not modelled.
- The keyed hash of packet signatures, random tokens and identifiers: the hash is a function parameter, tokens are
  reduced to whether they match.
- Telemetry handlers, message rates, STATUSTEXT assembly, shell, manual control, missions and target discovery in the
  bridge.
- Argument checks and airframe tables of the bridge: whether an airframe is known is a parameter.
- LocalRuntimeCoordinator, worker and the session managers around calibration and autotune: routing and ownership.
- The AM32 parameter layout: its source is not part of this model.
- Message texts, logging, progress rates and wall-clock formatting.
- In DataFlash logs floating-point values, text decoding, units, multipliers and instance fields: such fields stay bytes,
  and whether text is readable or a textual time usable is a parameter. So is the thousandfold of a scaled `TimeMS`, or of
  one too large for an exact product: the original computes it in floating point and cuts it off, so that 2.01 ms are 2009 us.
- The removal phase after a delete plan has been built.
- Ownership, reclaim and retention in radio calibration: owner tokens and timers as in the ESC session.
- MavlinkSession.MavlinkCodecSession.Write: all packets completed by one write are judged against one clock reading.
- MavlinkSession.MavlinkCodecSession.constructor: asking for signing together with version 1 is a precondition, where the
  original throws; the length check on the signing key goes with the hash.
- VerifiedWrites.VerifiedWrite.OnAnswer: a retransmitted PARAM_SET that the vehicle carries out after a later write to
  the same parameter is not modelled; the vehicle changes a parameter only between a write and its answer.
- CommandCells.RunIsAttributed: the link type, and with it the timeouts, is fixed within a run; the original cancels all
  transactions when the connection changes.
- FtpDownload.Run: hard deadlines and quiet timers are the end of a pass's event list.
- DataflashDecoder.SequentialSourceReader.Peek: the source is assumed to return as many bytes as it has.
