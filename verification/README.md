# A verified model of the media codec core

The repository's codec crate turns media frames into transport formats and back without touching sockets or clocks:
it is a set of state machines, each printer paired with a streaming parser. This project models six of them in Dafny
and proves what their documentation and tests promise, over every input, every run and every way of cutting a stream
into chunks.

| file | component |
|---|---|
| `Bytes.dfy` | machine integers, saturating arithmetic, big-endian fields |
| `Crc.dfy` | CRC-32/MPEG-2 (Annex A of ISO/IEC 13818-1) |
| `TsCommon.dfy`, `TsMux.dfy`, `TsDemux.dfy` | MPEG transport streams: packets, tables, elementary packets (sections 2.4.3 and 2.4.4 of ISO/IEC 13818-1) |
| `TsTables.dfy`, `TsRoundTrip.dfy` | what the demuxer reads back from the muxer |
| `TsLoss.dfy`, `TsClock.dfy` | what it reports of lost packets; the program clock over whole runs |
| `TsForms.dfy` | packets, headers and tables of other writers |
| `Fmp4Demux.dfy`, `Fmp4Mux.dfy`, `Fmp4RoundTrip.dfy` | fragmented MP4 (sections 4.2 and 8.8 of ISO/IEC 14496-12) |
| `Fmp4Runs.dfy`, `Fmp4Boxes.dfy`, `Fmp4Index.dfy` | track runs and boxes of other writers; the segment index |
| `Time.dfy` | wrap unwrapping, decode-time synthesis, the timestamp normalizer |
| `TimeScale.dfy`, `TimeRules.dfy` | output times against source time, in inequalities; the normalizer's rules one by one |
| `RtpReorder.dfy`, `Rtp.dfy` | the RTP reorder buffer and sequence unwrapper; packetizing and depacketizing |
| `Jtt1078.dfy`, `Jtt1078Forms.dfy` | the JT/T 1078 packetizer and per-channel assembler; packets of other senders |
| `AnnexB.dfy`, `Flv.dfy`, `FlvFormat.dfy` | Annex B of ITU-T H.264; the FLV printer and streaming parser, and files of other writers |

Each object that the source updates in place is a class here, and each of its methods is proved equal to a function
from the old state to the new state and the results. The properties are then lemmas about these functions: over
runs, over chunkings, and between printer and parser. Where a printer and its parser could be wrong alike, a second
writer or reader, declared field by field, stands against each of them. Bytes are bounded integers, and 16-, 32-, 33-
and 64-bit wrap-around is written out; arithmetic that overflows wraps, as it does in an optimised build.
`dafny verify dfyconfig.toml` checks the project.

Where a promised property does not hold of the code in general, the project gives the exact condition instead:

- RTP: a full period of 65536 packets ties in every gap. `Rtp.OrderIsRecoveredIff` says which sets of numbers are
  recovered, and `Rtp.ConsecutiveIsRecoveredIff` which runs of any length are.
- Annex B: `AnnexB.SplitInvertsMixedJoinIff` says which lists of units survive behind which start codes.
- Fragmented MP4: the segment index is written as version 1 but with a first offset of 32 bits instead of 64 (section
  8.16.3 of ISO/IEC 14496-12), so that a reader of version 1 takes the low half of the referenced size for the number
  of references. `Fmp4Index.StandardIndexIsCompleteIff`; `Fmp4Index.IndexIsRead` reads the layout that is written.
- JT/T 1078: a frame type `Other(v)` whose low four bits denote video is written without the timing fields it is
  read with, and a chunk limit above 65535 makes chunks whose length does not fit its field.
  `Jtt1078.ChunkComesBackIff` and, at one packet, `Jtt1078.OtherVideoIsMisread`.
- Transport streams: the demuxer unwraps 33-bit times forward only, takes a fall of more than 2^32 for a wrap, and
  applies the presentation time's offset to the decode time. Audio headers carry no decode time, and the demuxer puts
  the presentation time in its place. `TsRoundTrip.TimesComeBackIff`, `TsRoundTrip.DecodeTimeComesBackIff` (both
  kinds) and, for whole streams, `TsRoundTrip.StreamComesBackExactlyIff`; at single frames,
  `TsRoundTrip.LongFallIsTakenForWrap`, `TsRoundTrip.DecodeTimeBeforeWrapIsLate` and
  `TsRoundTrip.AudioDecodeTimeIsLost`. Times near the end of 64 bits overflow on the way back to microseconds:
  `TsRoundTrip.MicrosComeBackIff` and `TsRoundTrip.LateMicrosOverflow`.
- Wrap unwrapping: a step is at most half the range unless the counter leaves 64 bits, and the true time is recovered
  for steps of less than half the range. `Time.UnwrapStepIsSmallIff`, `Time.UnwrapRecoversTruthIff` and, at one step,
  `Time.FirstStepBackTurns`.
- FLV: the documentation says the parser starts afresh after an error. The code keeps its buffer after a file header
  error, and so does the model. `Flv.ErrorStartsAfreshIff` and, at one chunk, `Flv.BadSignatureIsKept`. A header that
  declares a data offset beyond 9 is reported as truncated when a chunk ends at or after its thirteenth byte but before its
  end: `Flv.ChunksAcceptedIff`. A caller who goes on after that error loses nothing: `Flv.ErrorsAreForgotten`.

## Model

| member | source | states |
|---|---|---|
| `TsRoundTrip.StreamComesBack` | crates/foundation/cheetah-codec/src/ts_demux.rs:160-298 | Main result: whatever is muxed after the first tables (tables again, frames of any tracks in any order, empty or oversized ones too) and however the bytes are cut into chunks, pushing and flushing reports the tracks and then, on each track, exactly the deliverable frames in order. Nothing remains buffered, and nothing else comes out but one overflow report per oversized frame, in order: no loss of synchronisation, no counter gap, no checksum error, no frame of another track. |
| `TsRoundTrip.StreamComesBackExactlyIff` | crates/foundation/cheetah-codec/src/ts_demux.rs:160-298 | The main result with times: each track gives exactly the deliverable payloads with their own 90 kHz presentation and decode times if and only if their clock starts in its first period, never goes back across a wrap, falls by at most half its range, and decode times survive: in the period of their presentation times for video, equal to them for audio. |
| `TsRoundTrip.RunComesBack` | crates/foundation/cheetah-codec/src/ts_mux.rs:165-248 | The same from any state in which the demuxer is in step with the muxer: what was buffered on the track comes first, then every deliverable frame. |
| `TsRoundTrip.RunReports` | crates/foundation/cheetah-codec/src/ts_demux.rs:281-297 | Over a run there is one overflow report for each unit that is too large, in order and on its own identifier, and no frame of a track that does not exist. |
| `TsRoundTrip.ChunksDoNotMatter` | crates/foundation/cheetah-codec/src/ts_demux.rs:160-199 | Every cutting of a packet-aligned stream into chunks feeds the packets one by one, with an empty remainder at the end. |
| `TsRoundTrip.UnitIsTaken` | crates/foundation/cheetah-codec/src/ts_common.rs:140-227 | The packets of one elementary packet, whatever its length, flags and clock reference, flush what was buffered and leave exactly its bytes buffered, or nothing and one overflow report when it exceeds the reassembly limit. |
| `TsRoundTrip.UnitFed` | crates/foundation/cheetah-codec/src/ts_demux.rs:252-298 | In the demuxer those packets touch only the track with their identifier. |
| `TsRoundTrip.PesIsRead` | crates/foundation/cheetah-codec/src/ts_mux.rs:389-436 | A built elementary packet is read back as its 33-bit times and its payload, and as nothing exactly when the payload is empty. |
| `TsRoundTrip.UnitComesBack` | crates/foundation/cheetah-codec/src/ts_demux.rs:506-606 | Emitting a buffered unit gives its frame, moves the wrap offset by its presentation time alone, and leaves no trace when the unit is not deliverable. |
| `TsRoundTrip.FrameKeepsLink` | crates/foundation/cheetah-codec/src/ts_mux.rs:165-248 | Pushing a frame keeps muxer and demuxer in step: same tracks, and the expected counter is the one the muxer writes next. |
| `TsRoundTrip.TablesKeepLink` | crates/foundation/cheetah-codec/src/ts_mux.rs:154-159 | Writing the tables again between frames changes nothing but a half-received section. |
| `TsRoundTrip.TimesComeBackIff` | crates/foundation/cheetah-codec/src/ts_demux.rs:541-553 | All presentation times come back exactly if and only if no frame goes back into an earlier period of the 33-bit clock than the frame before it and every step is steady: at most half the range back, and less than that into a later period. |
| `TsRoundTrip.FreshTimesComeBackIff` | crates/foundation/cheetah-codec/src/ts_demux.rs:541-553 | For a fresh demuxer the clock must also start in its first period; again if and only if. |
| `TsRoundTrip.OffsetFollowsIff` | crates/foundation/cheetah-codec/src/ts_demux.rs:542-549 | For any two times, the wrap offset keeps up with the true time exactly when the period does not fall and the step is steady. |
| `TsRoundTrip.LongFallIsTakenForWrap` | crates/foundation/cheetah-codec/src/ts_demux.rs:542-549 | From 4294967297 ticks back to 0 within the first period, the second frame comes back 2^33 ticks late. |
| `TsRoundTrip.FreshFramesAreExactIff` | crates/foundation/cheetah-codec/src/ts_demux.rs:541-553 | All frames come back with exactly their own presentation and decode times under the same exact condition. |
| `TsRoundTrip.DecodeTimeComesBackIff` | crates/foundation/cheetah-codec/src/ts_demux.rs:531-553 | When the presentation time is right, the decode time comes back exactly if and only if it lies in the same period, for video, and if and only if it equals the presentation time, for audio, whose header does not carry it. |
| `TsRoundTrip.DecodeTimeBeforeWrapIsLate` | crates/foundation/cheetah-codec/src/ts_demux.rs:552-553 | A frame presented just after a wrap and decoded one tick before it gets a decode time 2^33 ticks late. |
| `TsRoundTrip.AudioDecodeTimeIsLost` | crates/foundation/cheetah-codec/src/ts_mux.rs:228-234 | An audio frame presented after a second and decoded at once comes back with decode time 90000 instead of 0. |
| `TsRoundTrip.FirstPeriodComesBackIff` | crates/foundation/cheetah-codec/src/ts_demux.rs:541-553 | While all times lie below 2^33 and no presentation time falls by more than 2^32, every deliverable frame comes back with exactly its own 90 kHz times if and only if decode times survive, as they do for video. |
| `TsRoundTrip.OnlyDeliveredMatter` | crates/foundation/cheetah-codec/src/ts_demux.rs:506-533 | Frames without payload and oversized frames influence no time of the others. |
| `TsRoundTrip.MicrosComeBackIff` | crates/foundation/cheetah-codec/src/ts_demux.rs:615-618 | A time in microseconds comes back never late and at most twelve microseconds early if and only if it is not negative and a hundred times its 90 kHz ticks fit 63 bits. |
| `TsRoundTrip.LateMicrosOverflow` | crates/foundation/cheetah-codec/src/ts_demux.rs:615-618 | The time 1100000000000000000 comes back negative. |
| `TsRoundTrip.NewMuxIsWellFormed` | crates/foundation/cheetah-codec/src/ts_mux.rs:92-149 | A new muxer for up to 371 pass-through tracks, with bases clear of the reserved identifiers and of each other, has the stream of the main result. |
| `TsTables.SectionComesBack` | crates/foundation/cheetah-codec/src/ts_demux.rs:348-380 | A section whose length field is correct, cut into packets, comes back whole with the last packet and not before, whatever partial section was buffered. |
| `TsTables.PmtIsParsed` | crates/foundation/cheetah-codec/src/ts_demux.rs:382-496 | Parsing the muxer's map gives back its list of streams in order, with codec, kind and identifier; a map of known streams changes nothing. |
| `TsTables.CodecIsNamed` | crates/foundation/cheetah-codec/src/ts_common.rs:41-93 | Stream type and registration descriptor together name every codec but two, and the demuxer reads exactly that codec back. |
| `TsTables.TablesFed` | crates/foundation/cheetah-codec/src/ts_mux.rs:264-306 | Association table and map, fed to a demuxer in any state, select the map's packets and list the tracks that are new. |
| `TsTables.PatFed` | crates/foundation/cheetah-codec/src/ts_demux.rs:300-339 | The association table sets the map's packet identifier and raises no checksum error. |
| `TsTables.PmtIsWellFormed` | crates/foundation/cheetah-codec/src/ts_mux.rs:279-306 | A map of at most 4098 bytes has a correct length field and a correct checksum. |
| `TsTables.CorruptedMapIsRejected` | crates/foundation/cheetah-codec/src/ts_demux.rs:393-413 | In strict mode a valid map with up to four consecutive bytes corrupted outside its length field is reported and adds no tracks. |
| `TsTables.PesPacketIsRead` | crates/foundation/cheetah-codec/src/ts_common.rs:151-216 | A written elementary packet of 188 bytes is read back as its identifier, start bit, counter and payload, whatever adaptation field and stuffing precede it. |
| `TsTables.PsiPacketIsRead` | crates/foundation/cheetah-codec/src/ts_mux.rs:438-470 | So is a table packet. |
| `TsCommon.TimestampComesBack` | crates/foundation/cheetah-codec/src/ts_common.rs:98-117 | A timestamp decodes to itself modulo 2^33, whatever the marker bits. |
| `TsCommon.WritePesPackets` | crates/foundation/cheetah-codec/src/ts_common.rs:140-227 | The packets of a unit, filled in place in 188-byte arrays, are the ones specified, and the counter advances by their number modulo 16. |
| `TsCommon.FillPesPacket` | crates/foundation/cheetah-codec/src/ts_common.rs:151-216 | One packet filled in place: header, adaptation field and payload take exactly 188 bytes. |
| `TsCommon.Field` | crates/foundation/cheetah-codec/src/ts_common.rs:161-210 | The adaptation field fills the packet exactly around the payload and states its own length. |
| `TsCommon.SearchSync` | crates/foundation/cheetah-codec/src/ts_common.rs:284-294 | The search returns the first confirmed sync byte, or failing that the first sync byte in the last 188 bytes. |
| `TsCommon.SyncIsUnique` | crates/foundation/cheetah-codec/src/ts_common.rs:284-294 | That description has at most one answer. |
| `TsCommon.IdentifyPrivateStream` | crates/foundation/cheetah-codec/src/ts_common.rs:254-279 | The loop finds the first descriptor that names a codec and stops at one that is cut off. |
| `TsMux.MpegTsMuxer.constructor` | crates/foundation/cheetah-codec/src/ts_mux.rs:92-149 | Identifiers are assigned per kind in order, with a clock track chosen. |
| `TsMux.AssignAll` | crates/foundation/cheetah-codec/src/ts_mux.rs:102-133 | The n-th track of a kind gets the n-th packet and stream identifier of that kind. |
| `TsMux.NewMuxIsDistinct` | crates/foundation/cheetah-codec/src/ts_mux.rs:92-149 | With bases that leave room, every track gets an identifier of its own from the range of its kind. |
| `TsMux.SortTracksSorts` | crates/foundation/cheetah-codec/src/ts_mux.rs:94-98 | Tracks end up video first and by id, none lost and none added. |
| `TsMux.MpegTsMuxer.WriteTables` | crates/foundation/cheetah-codec/src/ts_mux.rs:154-159 | The bytes are the packets of the two tables, and both counters advance. |
| `TsMux.MpegTsMuxer.Push` | crates/foundation/cheetah-codec/src/ts_mux.rs:165-248 | The bytes are the packets of the frame's elementary packet and the track's counter advances; frames of unknown tracks are dropped. |
| `TsMux.PmtSection` | crates/foundation/cheetah-codec/src/ts_mux.rs:279-306 | The section with its length written over the placeholder and its checksum appended. |
| `TsMux.WriteSection` | crates/foundation/cheetah-codec/src/ts_mux.rs:438-470 | The packets of a section, with the counter after them; an empty section still takes one packet. |
| `TsMux.FillPsiPacket` | crates/foundation/cheetah-codec/src/ts_mux.rs:442-466 | One table packet filled in place. |
| `TsDemux.MpegTsDemuxer.Push` | crates/foundation/cheetah-codec/src/ts_demux.rs:160-199 | The whole new state and the events after any bytes, aligned or not; the loop terminates because every resynchronisation moves forward. |
| `TsDemux.MpegTsDemuxer.FeedFrom` | crates/foundation/cheetah-codec/src/ts_demux.rs:182-198 | The packet loop. |
| `TsDemux.MpegTsDemuxer.Flush` | crates/foundation/cheetah-codec/src/ts_demux.rs:204-212 | All buffered units are emitted in track order. |
| `TsDemux.MpegTsDemuxer.Feed` | crates/foundation/cheetah-codec/src/ts_demux.rs:214-298 | What one packet does to the state. |
| `TsDemux.MpegTsDemuxer.TakePat` | crates/foundation/cheetah-codec/src/ts_demux.rs:300-339 | What an association table does, checksum errors included. |
| `TsDemux.MpegTsDemuxer.ReassemblePmtSection` | crates/foundation/cheetah-codec/src/ts_demux.rs:348-380 | The section buffer and target after a payload, and the section if it is complete. |
| `TsDemux.MpegTsDemuxer.TakeSection` | crates/foundation/cheetah-codec/src/ts_demux.rs:382-496 | What a map section does, checksum errors included. |
| `TsDemux.WalkStreams` | crates/foundation/cheetah-codec/src/ts_demux.rs:417-495 | The loop over stream entries. |
| `TsDemux.SyncMoves` | crates/foundation/cheetah-codec/src/ts_demux.rs:183-191 | Searching from an offset is searching the rest of the buffer. |
| `Crc.Crc32Mpeg2` | crates/foundation/cheetah-codec/src/ts_common.rs:122-135 | The two nested loops compute the register of the bit-by-bit definition. |
| `Crc.BurstIsDetected` | crates/foundation/cheetah-codec/src/ts_common.rs:122-135 | Two strings that agree except within a window of at most four bytes have different checksums. |
| `Crc.SingleByteIsDetected` | crates/foundation/cheetah-codec/src/ts_common.rs:122-135 | Two strings of equal length that differ in exactly one byte have different checksums. |
| `Crc.OwnChecksumGivesZero` | crates/foundation/cheetah-codec/src/ts_common.rs:122-135 | A string followed by four bytes has checksum zero if and only if those are its own big-endian checksum. |
| `Crc.RegisterIsInjective` | crates/foundation/cheetah-codec/src/ts_common.rs:122-135 | No data makes two different registers equal. |
| `Crc.WordComesBack` | crates/foundation/cheetah-codec/src/ts_demux.rs:397-402 | Four bytes read back as a word exactly when they are that word's bytes. |
| `Fmp4Demux.PushSplits` | crates/foundation/cheetah-codec/src/fmp4_demux.rs:119-186 | From every state and for all bytes, well-formed or not, pushing a and then b gives the same events and state as pushing both at once, across oversized boxes, malformed sizes, 64-bit headers and size-0 boxes at top level. Box contents are those of the model: a child box with a 64-bit size of 8 to 15 ends the list of children, as noted below. |
| `Fmp4Demux.ChunksDoNotMatter` | crates/foundation/cheetah-codec/src/fmp4_demux.rs:119-186 | Hence no cutting into chunks can be told from pushing the whole. |
| `Fmp4Demux.ScanContinues` | crates/foundation/cheetah-codec/src/fmp4_demux.rs:131-183 | Scanning more bytes continues where the scan stopped. |
| `Fmp4Demux.PushKeepsValid` | crates/foundation/cheetah-codec/src/fmp4_demux.rs:119-130 | While an oversized box is being skipped nothing is buffered. |
| `Fmp4Demux.Fmp4Demuxer.PushBytes` | crates/foundation/cheetah-codec/src/fmp4_demux.rs:119-186 | New state and events after any bytes. |
| `Fmp4Demux.Fmp4Demuxer.SplitBoxes` | crates/foundation/cheetah-codec/src/fmp4_demux.rs:131-183 | The box loop; every round that goes on leaves a shorter buffer. |
| `Fmp4Demux.Fmp4Demuxer.Process` | crates/foundation/cheetah-codec/src/fmp4_demux.rs:204-240 | What one top-level box does to tracks and the pending fragment. |
| `Fmp4Demux.Fmp4Demuxer.Flush` | crates/foundation/cheetah-codec/src/fmp4_demux.rs:191-195 | Only the buffer is dropped. |
| `Fmp4Demux.ListChildren` | crates/foundation/cheetah-codec/src/fmp4_demux.rs:378-399 | The loop over child boxes stops at the first that is cut off. |
| `Fmp4Demux.FramesOfTraf` | crates/foundation/cheetah-codec/src/fmp4_demux.rs:261-345 | The frames of one track fragment. |
| `Fmp4Demux.CutAll` | crates/foundation/cheetah-codec/src/fmp4_demux.rs:312-345 | One frame per sample until one would reach beyond the media data. |
| `Fmp4Mux.Fmp4Muxer.WriteSegment` | crates/foundation/cheetah-codec/src/fmp4_mux.rs:146-173 | The segment is the specified boxes, sizes, data offsets and index entry patched; the sequence number advances only when there are samples. |
| `Fmp4Mux.Fmp4Muxer.WritePart` | crates/foundation/cheetah-codec/src/fmp4_mux.rs:178-191 | The same without leading boxes. |
| `Fmp4Mux.WriteMoofMdat` | crates/foundation/cheetah-codec/src/fmp4_mux.rs:738-868 | Writing with placeholders and patching afterwards gives the declarative layout of nested boxes. |
| `Fmp4Mux.PatchOffsets` | crates/foundation/cheetah-codec/src/fmp4_mux.rs:845-858 | Every data offset is written over its own placeholder. |
| `Fmp4Mux.TrafsPatched` | crates/foundation/cheetah-codec/src/fmp4_mux.rs:845-858 | Patching the offset of one track fragment changes that offset and nothing else. |
| `Fmp4Mux.WriteTrafs` | crates/foundation/cheetah-codec/src/fmp4_mux.rs:763-840 | The recorded positions are where the placeholders stand. |
| `Fmp4Mux.SizePatched` | crates/foundation/cheetah-codec/src/fmp4_mux.rs:875-878 | Patching a size completes the box. |
| `Fmp4Mux.SidxPatched` | crates/foundation/cheetah-codec/src/fmp4_mux.rs:712-717 | Patching the segment index sets its size and duration and nothing else. |
| `Fmp4Mux.GroupByTrack` | crates/foundation/cheetah-codec/src/fmp4_mux.rs:739-745 | Samples are grouped by the first track with their id, in order. |
| `Fmp4RoundTrip.StreamComesBack` | crates/foundation/cheetah-codec/src/fmp4_demux.rs:252-345 | Main result: whatever segments are written, with or without leading boxes, and however their bytes are cut into chunks, each track gets exactly the payloads of its samples in order with the right key frame marks, with no diagnostics and nothing left buffered. |
| `Fmp4RoundTrip.SegmentComesBack` | crates/foundation/cheetah-codec/src/fmp4_mux.rs:146-173 | One segment gives the frames of its parts. |
| `Fmp4RoundTrip.TrafComesBack` | crates/foundation/cheetah-codec/src/fmp4_demux.rs:261-345 | A track fragment with its patched data offset gives exactly its part's frames, cut at the part's first byte. |
| `Fmp4RoundTrip.TrafIsRead` | crates/foundation/cheetah-codec/src/fmp4_demux.rs:261-311 | Track id, base time, data offset and run are read back as written. |
| `Fmp4RoundTrip.RunIsRead` | crates/foundation/cheetah-codec/src/fmp4_demux.rs:661-751 | A written track run is read back sample by sample. |
| `Fmp4RoundTrip.ScanFindsBoxes` | crates/foundation/cheetah-codec/src/fmp4_demux.rs:357-376 | The top-level parser finds the boxes that were written and leaves nothing. |
| `Fmp4RoundTrip.ChildrenAreFound` | crates/foundation/cheetah-codec/src/fmp4_demux.rs:378-399 | So does the parser of child boxes. |
| `Fmp4RoundTrip.GroupIsSent` | crates/foundation/cheetah-codec/src/fmp4_mux.rs:739-745 | With distinct ids a group is exactly the samples of its track. |
| `Fmp4RoundTrip.TicksAreFloor` | crates/foundation/cheetah-codec/src/fmp4_mux.rs:870-873 | For microseconds at least zero the ticks are the exact quotient rounded down. |
| `Fmp4RoundTrip.TicksFollowTime` | crates/foundation/cheetah-codec/src/fmp4_mux.rs:777-803 | The decode tick rebuilt from truncated durations is never ahead of the exact one and behind by at most one tick per sample; each fragment starts without error. |
| `Fmp4RoundTrip.TimeComesBack` | crates/foundation/cheetah-codec/src/fmp4_demux.rs:314-344 | A decode time comes back never late, and early by less than a microsecond plus one tick for itself and each sample before it in the fragment. |
| `Fmp4RoundTrip.PresentationTimeComesBack` | crates/foundation/cheetah-codec/src/fmp4_demux.rs:314-344 | The presentation time of a video frame comes back within one more tick than its decode time, early or late, and never late when it is not before the decode time. An audio frame carries its decode time for both, so its presentation time is early by its composition offset more than the decode time is, to within the same bound. |
| `Time.UnwrapNeverOverflows` | crates/foundation/cheetah-codec/src/time.rs:138-152 | The period counter stays a multiple of 2^bits, so adding the raw value never overflows. |
| `Time.UnwrapStepsAreSmall` | crates/foundation/cheetah-codec/src/time.rs:138-152 | Consecutive unwrapped values differ by a step of at most half the range, up to a turn of 2^64 that happens exactly when the counter leaves 64 bits: up on a fall by more than half in its last period, down on a rise by more than half in its first. |
| `Time.UnwrapStepIsSmallIff` | crates/foundation/cheetah-codec/src/time.rs:138-152 | Consecutive values lie within half the range of each other if and only if there is no such turn. |
| `Time.FirstStepBackTurns` | crates/foundation/cheetah-codec/src/time.rs:138-152 | From 0 to 3 on a two-bit counter the value is 2^64 - 1. |
| `Time.UnwrapRecoversTruth` | crates/foundation/cheetah-codec/src/time.rs:138-152 | Low bits of a true timeline with steps below half the range unwrap to the true times. |
| `Time.UnwrapRecoversTruthIff` | crates/foundation/cheetah-codec/src/time.rs:138-152 | The true time of given low bits is recovered if and only if the first lies in period 0 and each step is less than half a period, or exactly half within one period. |
| `Time.WrapUnwrapper.Unwrap` | crates/foundation/cheetah-codec/src/time.rs:138-152 | The new state and value are those of the specified unwrapping. |
| `Time.DtsGenerator.GenerateFromPtsOnly` | crates/foundation/cheetah-codec/src/time.rs:299-378 | The new state and decode time are those of the specified generator. |
| `Time.TimestampNormalizer.Normalize` | crates/foundation/cheetah-codec/src/time.rs:741-875 | New state, output and alerts for all four input modes, errors included. |
| `Time.TimestampNormalizer.ResolveTicks` | crates/foundation/cheetah-codec/src/time.rs:880-910 | A value is unwrapped if need be and rescaled, or the error is named. |
| `Time.TimestampNormalizer.SettleSample` | crates/foundation/cheetah-codec/src/time.rs:826-875 | Epoch, output and new state of one sample. |
| `Time.TimestampNormalizer.ComposeOutput` | crates/foundation/cheetah-codec/src/time.rs:833-875 | Order, composition, discontinuity and alerts of one sample. |
| `Time.RaisedForItsCause` | crates/foundation/cheetah-codec/src/time.rs:792-860 | Each alert is raised exactly for its causes. |
| `Time.TimestampNormalizer.Reset` | crates/foundation/cheetah-codec/src/time.rs:710-734 | All timeline state is cleared and the reset is remembered. |
| `Time.RepairKeepsOrder` | crates/foundation/cheetah-codec/src/time.rs:833-845 | The repair alert is raised exactly when the candidate does not exceed the last decode time, and then the decode time is one past it. |
| `Time.DecodeTimesIncrease` | crates/foundation/cheetah-codec/src/time.rs:741-875 | Over every run and any mix of modes, decode times strictly increase until the largest 64-bit value. |
| `Time.CompositionIsKept` | crates/foundation/cheetah-codec/src/time.rs:847-860 | A sample with both times that is neither repaired nor clamped keeps presentation minus decode time. |
| `Time.GeneratedTimesIncrease` | crates/foundation/cheetah-codec/src/time.rs:299-378 | Generated decode times strictly increase. |
| `Time.PtsOnlyRunNeedsNoRepair` | crates/foundation/cheetah-codec/src/time.rs:741-875 | A run of samples with presentation times only starts at zero and is never repaired. |
| `Time.BackwardSampleLocks` | crates/foundation/cheetah-codec/src/time.rs:299-378 | A backward presentation time steps by the fallback step and locks the cadence. |
| `Time.CadenceIsLocked` | crates/foundation/cheetah-codec/src/time.rs:299-378 | From then on every increment is exactly the fallback step however the presentation times are reordered, and the smoothed step stays. |
| `Time.FreshRunIsTransparent` | crates/foundation/cheetah-codec/src/time.rs:741-910 | Feeding the low bits of a true timeline gives the same outputs and alerts as feeding the true times. |
| `Time.ConstructedConfigIsSafe` | crates/foundation/cheetah-codec/src/time.rs:494-540 | A configuration is made exactly when both timebases are non-zero and the width is one of 1 to 63; normalizers built from it, however its setters are used, have increasing decode times and are transparent to wrapping. |
| `RtpReorder.NearestCycle` | crates/foundation/cheetah-codec/src/rtp_reorder.rs:151-190 | The search over three candidates gives the closed form: ahead when the offset is below half a period, one before the expected number otherwise. |
| `RtpReorder.ExtendRecoversTruth` | crates/foundation/cheetah-codec/src/rtp_reorder.rs:151-190 | A number within half a period of the expected one is recovered when it is not late, and a late one stays late. |
| `RtpReorder.RtpReorderBuffer.Push` | crates/foundation/cheetah-codec/src/rtp_reorder.rs:78-127 | New state and released packets, for all three forced-release rules. |
| `RtpReorder.RtpReorderBuffer.DrainContiguous` | crates/foundation/cheetah-codec/src/rtp_reorder.rs:192-199 | Everything that continues the order is released. |
| `RtpReorder.RtpReorderBuffer.ForceReleaseClosest` | crates/foundation/cheetah-codec/src/rtp_reorder.rs:201-219 | The closest waiting packet and what follows it are released. |
| `RtpReorder.PushKeeps` | crates/foundation/cheetah-codec/src/rtp_reorder.rs:78-127 | Every push conserves packets, returns consecutive numbers and keeps the bounds. |
| `RtpReorder.RunIsSafe` | crates/foundation/cheetah-codec/src/rtp_reorder.rs:78-135 | Over every run and all settings: delivered numbers strictly increase, every accepted packet is in exactly one of delivered and pending, and pending is bounded. |
| `RtpReorder.EachPushIsConsecutive` | crates/foundation/cheetah-codec/src/rtp_reorder.rs:78-127 | Each push returns a run of consecutive numbers. |
| `RtpReorder.RunIsComplete` | crates/foundation/cheetah-codec/src/rtp_reorder.rs:78-127 | Without forced releases the output is exactly the gap-free prefix of what arrived, in any order, with duplicates and across wraps; pending is exactly what lies beyond the first gap. |
| `RtpReorder.RtpSequenceUnwrapper.Extend` | crates/foundation/cheetah-codec/src/rtp_reorder.rs:264-304 | The new expected number and the extended number; the maximum stays one below the expected. |
| `RtpReorder.UnwrapperTracksTruth` | crates/foundation/cheetah-codec/src/rtp_reorder.rs:264-304 | The unwrapper follows the true 64-bit stream up to a constant; new highest numbers come out as themselves, late ones as the highest so far. |
| `Rtp.PacketizePayload` | crates/foundation/cheetah-codec/src/rtp.rs:161-179 | The packets are the payload cut at the payload size, numbered on from the header, with the marker on the last. |
| `Rtp.DepacketizePayload` | crates/foundation/cheetah-codec/src/rtp.rs:234-272 | The result is the payloads in an order that starts after the widest cyclic gap. |
| `Rtp.OrderIsRecoveredIff` | crates/foundation/cheetah-codec/src/rtp.rs:234-272 | For packets numbered within one period the order sent is recovered from any arrival order if and only if the boundary gap is the widest. |
| `Rtp.SurvivorsKeepOrder` | crates/foundation/cheetah-codec/src/rtp.rs:234-272 | Survivors whose true numbers span less than half a period are concatenated in send order. |
| `Rtp.DepacketizeInvertsPacketize` | crates/foundation/cheetah-codec/src/rtp.rs:234-272 | Any permutation of up to 65535 packets gives the payload back, also across the wrap. |
| `Rtp.FullPeriodIsRecoveredOnlyFromOne` | crates/foundation/cheetah-codec/src/rtp.rs:234-272 | A full period of 65536 packets is recovered only when it starts at number 1. |
| `Rtp.ConsecutiveIsRecoveredIff` | crates/foundation/cheetah-codec/src/rtp.rs:234-272 | Packets numbered upwards, as many as there may be: the order sent is recovered exactly when there are fewer than 65536, or exactly 65536 starting at number 1; never when numbers repeat. |
| `Rtp.StartIsUnique` | crates/foundation/cheetah-codec/src/rtp.rs:239-264 | The widest-gap rule determines the start. |
| `AnnexB.SplitAnnexB` | crates/foundation/cheetah-codec/src/rtp_es.rs:577-633 | The nested loops give the specified units and terminate on every input. |
| `AnnexB.AnnexBFromUnits` | crates/foundation/cheetah-codec/src/rtp_es.rs:635-643 | The loop writes every unit behind a four-byte start code. |
| `AnnexB.SplitInvertsJoinIff` | crates/foundation/cheetah-codec/src/rtp_es.rs:577-643 | The same for units joined by four-byte codes alone: they come back if and only if each is non-empty and contains no 00 00 01; leading and trailing zero bytes survive. |
| `AnnexB.UnitsAreDelimitable` | crates/foundation/cheetah-codec/src/rtp_es.rs:577-633 | Every unit that splitting returns can be joined and split again. |
| `Flv.FlvDemuxer.Push` | crates/foundation/cheetah-codec/src/flv.rs:340-352 | New state and events or error after any chunk. |
| `Flv.FlvDemuxer.ParseBuffer` | crates/foundation/cheetah-codec/src/flv.rs:354-432 | What the buffered bytes give. |
| `Flv.PushSplits` | crates/foundation/cheetah-codec/src/flv.rs:340-432 | Pushing in two parts is pushing the whole, where neither part exceeds the limit or fails. |
| `Flv.BufferStaysBounded` | crates/foundation/cheetah-codec/src/flv.rs:340-352 | The buffer never exceeds its limit. |
| `Flv.ScanOfEncodedTags` | crates/foundation/cheetah-codec/src/flv.rs:155-184 | Encoded tags are parsed back as themselves, without size mismatches. |
| `Flv.ChunkedStreamInverts` | crates/foundation/cheetah-codec/src/flv.rs:340-432 | An encoded header and tags, cut into any chunks that fit, come back as exactly the header and the tags with an empty buffer. |
| `Flv.CutHeaderIsRecovered` | crates/foundation/cheetah-codec/src/flv.rs:90-128 | An acceptable header is reported as truncated exactly when at least thirteen bytes but not all of it have arrived; pushing the rest then gives the same as pushing the whole. |
| `Flv.ChunksAcceptedIff` | crates/foundation/cheetah-codec/src/flv.rs:340-432 | A stream with an acceptable header and good tags, cut into any chunks that fit, is accepted without an error if and only if no chunk ends within the header's bytes from the thirteenth on; then out come the header and all tags. |
| `Flv.ErrorsAreForgotten` | crates/foundation/cheetah-codec/src/flv.rs:340-432 | Wherever the chunks end, a caller who goes on after the errors gets the header and all tags. |
| `Flv.ErrorStartsAfreshIff` | crates/foundation/cheetah-codec/src/flv.rs:340-388 | After an error the demuxer starts afresh if and only if the buffer overflowed or a tag was bad; after a file header error it keeps all it has. |
| `Flv.BadSignatureIsKept` | crates/foundation/cheetah-codec/src/flv.rs:90-128 | Thirteen bytes without the signature stay in the buffer and spoil every header pushed after them. |
| `Flv.HeaderErrorIsForgotten` | crates/foundation/cheetah-codec/src/flv.rs:340-362 | After a file header error, pushing more is as if nothing had been cut. |
| `Jtt1078.SimRoundTrip` | crates/foundation/cheetah-codec/src/jtt1078.rs:778-796 | A number of twelve digits survives its six packed bytes. |
| `Jtt1078.StrToBcd` | crates/foundation/cheetah-codec/src/jtt1078.rs:788-796 | The in-place loop packs two digits per byte, zero where the text is short. |
| `Jtt1078.PacketParsesBack` | crates/foundation/cheetah-codec/src/jtt1078.rs:237-355 | A packet parses back to its header and chunk. |
| `Jtt1078.ChunkComesBackIff` | crates/foundation/cheetah-codec/src/jtt1078.rs:237-355 | The chunk comes back if and only if the frame type has the same layout in writing and reading and the chunk has at most 65535 bytes. |
| `Jtt1078.OtherVideoIsMisread` | crates/foundation/cheetah-codec/src/jtt1078.rs:237-355 | A one-byte packet of type Other(1) is rejected by the parser. |
| `Jtt1078.Packetizer.Packetize` | crates/foundation/cheetah-codec/src/jtt1078.rs:689-772 | The packets of a frame and the advanced 16-bit counter. |
| `Jtt1078.FrameAssembler.Push` | crates/foundation/cheetah-codec/src/jtt1078.rs:497-609 | New buffers, frames and diagnostics for any packet. |
| `Jtt1078.PacketizerMakesStream` | crates/foundation/cheetah-codec/src/jtt1078.rs:689-772 | A channel's stream is what its packetizer emits. |
| `Jtt1078.ChannelDelivers` | crates/foundation/cheetah-codec/src/jtt1078.rs:497-609 | Loss atomicity: out come exactly the frames all of whose packets arrived, whole and in order, across sequence wraps. |
| `Jtt1078.AnyOrderDelivers` | crates/foundation/cheetah-codec/src/jtt1078.rs:497-609 | For lost, duplicated and reordered packets, consecutive fragments staying within 65536 numbers: out come exactly the frames whose packets arrived one after the other from first to last, and exactly the fragments that continue nothing are reported, with the number that was due where there was one. |
| `Jtt1078.OnlySentFrames` | crates/foundation/cheetah-codec/src/jtt1078.rs:497-609 | Each such frame is one of the frames sent, whole. |
| `Jtt1078.ChannelsDoNotInterfere` | crates/foundation/cheetah-codec/src/jtt1078.rs:497-609 | For each channel the assembler behaves as if it received that channel alone. |
| `Jtt1078.EveryChannelDelivers` | crates/foundation/cheetah-codec/src/jtt1078.rs:497-609 | Both together, for any interleaving and any losses. |
| `Jtt1078.EveryChannelDeliversAnyOrder` | crates/foundation/cheetah-codec/src/jtt1078.rs:497-609 | The same for duplicated and reordered packets of many interleaved channels. |
| `Jtt1078.NoForeignFrames` | crates/foundation/cheetah-codec/src/jtt1078.rs:497-609 | No frame comes out under a key that no channel has. |
| `TsLoss.LossyStreamReports` | crates/foundation/cheetah-codec/src/ts_demux.rs:263-274 | A muxed stream over a channel that loses, repeats and reorders packets: on every track the breaks reported are exactly those between two packets in a row of the track whose distance is no multiple of 16 beyond one, each with the counter due after the first and the counter of the second. |
| `TsLoss.LossIsReportedIff` | crates/foundation/cheetah-codec/src/ts_demux.rs:263-274 | The same for any packets around those of the track, from any state with a counter due: n missing packets are reported if and only if n is no multiple of 16. |
| `TsLoss.FirstLossIsReportedIff` | crates/foundation/cheetah-codec/src/ts_demux.rs:263-274 | The same for a track of which nothing has arrived; its first packet is never reported. |
| `TsLoss.BreakIsReportedIff` | crates/foundation/cheetah-codec/src/ts_demux.rs:263-274 | One payload is reported exactly when a counter is due and another comes, with both; the rest of the answer does not depend on the counter, and the next counter is due afterwards. |
| `TsLoss.RunCountsOn` | crates/foundation/cheetah-codec/src/ts_common.rs:140-227 | In every run of the muxer the packets of a track count on by one modulo 16, and no table makes its identifier the map's. |
| `TsClock.RunSendsKeyMarks` | crates/foundation/cheetah-codec/src/ts_mux.rs:236-245 | Over every run of the muxer, read by an independent reader of adaptation fields: random-access marks and clocks stand on the first packets of key frames of video tracks, one each, with the low 33 bits of the decode time and extension zero, and on no other packet. |
| `TsClock.PesPacketMarks` | crates/foundation/cheetah-codec/src/ts_common.rs:150-200 | The first packet of a unit carries the marks asked for, the others carry none, whatever the stuffing. |
| `TsClock.ClockComesBack` | crates/foundation/cheetah-codec/src/ts_common.rs:172-181 | The six clock bytes read back as the low 33 bits, with extension zero. |
| `TsClock.MapNamesClock` | crates/foundation/cheetah-codec/src/ts_mux.rs:92-150 | The map names the first video track for the clock, failing that the first track, and the video base where there is none. |
| `TsClock.TicksAreNinetyKilohertz` | crates/foundation/cheetah-codec/src/ts_mux.rs:381-387 | Microseconds become whole ninety-thousandths of a second while nine times them fit in 64 bits; times before zero become zero. |
| `TsClock.ClockAtTenSeconds` | crates/foundation/cheetah-codec/src/ts_common.rs:172-181 | The clock bytes of ten seconds. |
| `TsForms.AnyPacketIsRead` | crates/foundation/cheetah-codec/src/ts_demux.rs:214-250 | A packet with any header bits and any adaptation field is read as its payload, if it has any. |
| `TsForms.LongFieldIsReported` | crates/foundation/cheetah-codec/src/ts_demux.rs:228-243 | A field announced as longer than the packet is reported, and nothing of the packet is used. |
| `TsForms.TimedPesIsRead` | crates/foundation/cheetah-codec/src/ts_demux.rs:506-545 | An elementary header with one or two times and anything behind them is read as those times modulo 2^33 and its payload. |
| `TsForms.UntimedPesIsRead` | crates/foundation/cheetah-codec/src/ts_demux.rs:506-545 | Without times any optional part is passed over; forbidden flags and empty payloads say nothing. |
| `TsForms.ShortTimesSayNothing` | crates/foundation/cheetah-codec/src/ts_demux.rs:506-545 | An optional part too short for its times says nothing, so payload is never decoded as a time. |
| `TsForms.AnyPatIsRead` | crates/foundation/cheetah-codec/src/ts_demux.rs:300-339 | Any association table behind any pointer field: the first program's map is followed; a wrong checksum is reported, and only in strict mode keeps the table from being used. |
| `TsForms.AnyPmtIsRead` | crates/foundation/cheetah-codec/src/ts_demux.rs:382-497 | Any map section with program and stream descriptors: its entries are taken in turn; a wrong checksum is reported first, and only in strict mode keeps them from being taken. |
| `TsForms.StreamIsListed` | crates/foundation/cheetah-codec/src/ts_demux.rs:418-495 | Of one entry: known streams are passed over, named ones announced under the next number, private ones without descriptors followed in silence, all others reported. |
| `TsForms.FirstNamedDecides` | crates/foundation/cheetah-codec/src/ts_common.rs:254-282 | Of any list of descriptors the first that names a codec decides. |
| `TsForms.RegisteredNames` | crates/foundation/cheetah-codec/src/ts_common.rs:254-282 | The six registrations, by their letters, and no others. |
| `TsForms.StreamTypes` | crates/foundation/cheetah-codec/src/ts_common.rs:62-81 | The twelve stream types that name a codec, and the clock rates. |
| `TsForms.ProbedFrames` | crates/foundation/cheetah-codec/src/ts_demux.rs:506-606 | While a private stream's codec is not inferred its frames are lost; the payload that names one announces the track as video and is put out. |
| `TsForms.LeadingGarbageIsReported` | crates/foundation/cheetah-codec/src/ts_demux.rs:160-199 | Bytes before the first confirmed packet are dropped behind one report, and the packets are fed as if they stood alone. |
| `TsForms.InnerGarbageIsReported` | crates/foundation/cheetah-codec/src/ts_demux.rs:183-195 | So are bytes between packets. |
| `TsForms.GarbageIsDropped` | crates/foundation/cheetah-codec/src/ts_demux.rs:174-180 | Bytes without any packet are dropped but for the last 187. |
| `TsForms.PesBytes` | crates/foundation/cheetah-codec/src/ts_mux.rs:389-436 | The bytes of a written elementary header: start code, stream, length where 16 bits hold it and the stream is not video, flags, times. |
| `TsForms.PatBytes` | crates/foundation/cheetah-codec/src/ts_mux.rs:264-277 | The bytes of the association table with its checksum. |
| `TsForms.MapBytes` | crates/foundation/cheetah-codec/src/ts_mux.rs:279-307 | The fixed bytes of a map section. |
| `TsForms.EntryBytes` | crates/foundation/cheetah-codec/src/ts_mux.rs:279-307 | A written map entry is one a declarative writer makes, with the reserved bits set. |
| `TsForms.NewTracksCount` | crates/foundation/cheetah-codec/src/ts_mux.rs:92-150 | A new muxer counts from zero; the first track of a kind has its base and first stream number, each further one the next of both. |
| `TsForms.PreparedFrames` | crates/foundation/cheetah-codec/src/ts_mux.rs:165-234 | Exactly AAC frames and frames of the three H.26x video codecs have their payload rewritten. |
| `Crc.CheckValue` | crates/foundation/cheetah-codec/src/ts_common.rs:122-133 | The digits 1 to 9 have the check value 0x0376E6E7. |
| `TimeScale.RunFollowsSourceTime` | crates/foundation/cheetah-codec/src/time.rs:741-875 | Main result: over every run that starts with a plain time, each unrepaired decode time and unclamped presentation time, in ticks and in microseconds, is the source time elapsed since the first sample, never further off than the rounding of its conversions; stated as inequalities in the timebases. |
| `TimeScale.ConvertFollowsTime` | crates/foundation/cheetah-codec/src/time.rs:405-415 | A time is converted never late, and early by less than a microsecond and one output tick, for all positive timebases in range. |
| `TimeScale.ConvertIsOdd` | crates/foundation/cheetah-codec/src/time.rs:36-57 | Times before zero are converted like times after it, rounding toward zero. |
| `TimeScale.NinetyKilohertzSecond` | crates/foundation/cheetah-codec/src/time.rs:405-408 | One second at 90 kHz in microseconds and, before zero, in milliseconds. |
| `TimeRules.RisingTimesAreKept` | crates/foundation/cheetah-codec/src/time.rs:299-378 | As long as presentation times rise and no duration is given they are the decode times, however far they jump. |
| `TimeRules.JumpsAreReportedIff` | crates/foundation/cheetah-codec/src/time.rs:299-378 | A jump is a move beyond the largest gap and beyond eight steps, expected and fallback; a move back that is no jump is a reordering; if and only if. |
| `TimeRules.SmoothingIs` | crates/foundation/cheetah-codec/src/time.rs:299-378 | The step taken and the step kept for each kind of move, as inequalities: three parts of the old step and one of the new. |
| `TimeRules.DurationIsStep` | crates/foundation/cheetah-codec/src/time.rs:299-378 | A frame duration is the step, wherever the presentation time moves. |
| `TimeRules.GapsAreReportedIff` | crates/foundation/cheetah-codec/src/time.rs:741-875 | A step forward is a gap exactly when it lasts a whole microsecond longer than the limit; gaps, jumps, resets and the caller's demand make a sample discontinuous, and nothing else does. |
| `TimeRules.ReorderingIsReportedIff` | crates/foundation/cheetah-codec/src/time.rs:741-875 | Only samples with nothing but a presentation time go through the generator, and a reordering is reported exactly when it finds one. |
| `TimeRules.UntimedRunSteps` | crates/foundation/cheetah-codec/src/time.rs:741-875 | Samples without timestamps start at zero and follow each other by the fallback step. |
| `TimeRules.OffsetIsAdded` | crates/foundation/cheetah-codec/src/time.rs:741-875 | With a decode time and a composition offset the presentation time is their sum, or the decode time where it is clamped. |
| `TimeRules.RefusedIff` | crates/foundation/cheetah-codec/src/time.rs:880-911 | A sample is refused exactly when one of its times is, the decode time first, and then nothing of the timeline changes. |
| `Fmp4Runs.AnyRunIsRead` | crates/foundation/cheetah-codec/src/fmp4_demux.rs:661-751 | Track runs with every combination of optional fields, of any version, are read back field by field: absent fields are zero, the first sample has the run's flags exactly when the run has them and its entries do not, and announced entries that are missing are left out. |
| `Fmp4Runs.RunWithFirstFlags` | crates/foundation/cheetah-codec/src/fmp4_demux.rs:687-693 | A run with flags for its first sample, byte by byte. |
| `Fmp4Boxes.AnyBoxesAreFound` | crates/foundation/cheetah-codec/src/fmp4_demux.rs:119-189 | Boxes with 32-bit or 64-bit headers are found; oversized ones are skipped whole with one notice, and malformed ones lose their header alone. |
| `Fmp4Boxes.CutOversizedIsSkipped` | crates/foundation/cheetah-codec/src/fmp4_demux.rs:119-189 | Of a box that is too large, what has arrived is dropped and the rest is skipped as it arrives. |
| `Fmp4Boxes.SizeZeroWaits` | crates/foundation/cheetah-codec/src/fmp4_demux.rs:357-376 | A size of zero makes the parser wait for good. |
| `Fmp4Boxes.CutFramesAre` | crates/foundation/cheetah-codec/src/fmp4_demux.rs:309-353 | Frame k of a run has the bytes behind the sizes and the time behind the durations of the samples before it; the first sample beyond the media data is reported once, and only then. |
| `Fmp4Boxes.KeyframeBits` | crates/foundation/cheetah-codec/src/fmp4_demux.rs:753-758 | Key frames by their dependency and sync bits, whatever the other bits. |
| `Fmp4Boxes.AnyTfdtIsRead` | crates/foundation/cheetah-codec/src/fmp4_demux.rs:261-300 | Decode times of 64 bits in version 1 and of 32 bits otherwise. |
| `Fmp4Boxes.FragmentIsUsedOnce` | crates/foundation/cheetah-codec/src/fmp4_demux.rs:204-240 | A fragment is used for the next media data alone, unless a later one takes its place. |
| `Fmp4Boxes.SecondMovieReplaces` | crates/foundation/cheetah-codec/src/fmp4_demux.rs:204-251 | A second movie box takes the place of the first and is reported. |
| `Fmp4Boxes.FragmentStart` | crates/foundation/cheetah-codec/src/fmp4_demux.rs:309-325 | A fragment of a known track is cut from its data offset, counted from the front of the fragment box, or from the front of the media data where the offset is missing or too small. |
| `Fmp4Boxes.UnknownTrackIsReported` | crates/foundation/cheetah-codec/src/fmp4_demux.rs:261-308 | A fragment of an unknown track gives no frame and is reported with the number it names. |
| `Fmp4Index.IndexIsRead` | crates/foundation/cheetah-codec/src/fmp4_mux.rs:683-736 | The index names the first track, its timescale, the least presentation time and the span on that timescale, the bytes that follow, and whether there is a key frame. |
| `Fmp4Index.IndexRefersToRest` | crates/foundation/cheetah-codec/src/fmp4_mux.rs:146-176 | In a segment with an index, the bytes referred to are those of the fragment and its media data, which follow it. |
| `Fmp4Index.StandardIndexIsCompleteIff` | crates/foundation/cheetah-codec/src/fmp4_mux.rs:683-704 | Read as version 1 lays it out, the index holds all references it counts exactly when the size is a multiple of 65536, and then it counts none. |
| `Fmp4Index.DurationsAre` | crates/foundation/cheetah-codec/src/fmp4_mux.rs:786-868 | A sample lasts until the next, the last as long as the one before it, one alone the default of its kind. |
| `Fmp4Index.FixedFields` | crates/foundation/cheetah-codec/src/fmp4_mux.rs:738-868 | Versions and flags of the boxes of a fragment. |
| `Fmp4Index.SegmentBrands` | crates/foundation/cheetah-codec/src/fmp4_mux.rs:356-365 | The brands of a segment. |
| `Jtt1078Forms.AnyPacketIsRead` | crates/foundation/cheetah-codec/src/jtt1078.rs:237-355 | Packets of both versions are read field by field, marker and intervals included, whatever follows; unknown marks are refused. |
| `Jtt1078Forms.PacketIsWritten` | crates/foundation/cheetah-codec/src/jtt1078.rs:689-776 | The packetizer's packets are those a declarative writer makes; of a chunk that 16 bits cannot measure the first 65535 bytes are the payload. |
| `Jtt1078Forms.OverflowIsReported` | crates/foundation/cheetah-codec/src/jtt1078.rs:497-610 | A frame outgrows the cache exactly with the fragment that takes it past the limit; that one is reported with the size reached. |
| `Jtt1078Forms.AnySimIsPadded` | crates/foundation/cheetah-codec/src/jtt1078.rs:778-803 | Any text gives its first twelve digits, filled up with zeros behind them. |
| `FlvFormat.AnyFileIsRead` | crates/foundation/cheetah-codec/src/flv.rs:340-432 | A file from any writer: header with extra bytes, tags with any stream id; a trailing size is reported exactly when it is not the size of header and payload. |
| `FlvFormat.AnyTagsAreRead` | crates/foundation/cheetah-codec/src/flv.rs:354-432 | So for tags followed by anything. |
| `FlvFormat.AnyTagIsRead` | crates/foundation/cheetah-codec/src/flv.rs:354-432 | One complete tag: accepted, or refused for its type or its size. |
| `FlvFormat.AnyHeaderIsRead` | crates/foundation/cheetah-codec/src/flv.rs:90-150 | Headers with any flags, version and extra bytes; HeaderIsRefused and CutHeaderIsTruncated give the errors. |
| `FlvFormat.EncodedTagIs` | crates/foundation/cheetah-codec/src/flv.rs:155-191 | Encoded tags are those a declarative writer makes, with payloads cut to 24 bits of length. |
| `AnnexB.SplitInvertsMixedJoinIff` | crates/foundation/cheetah-codec/src/rtp_es.rs:577-633 | Units behind any mix of three- and four-byte start codes come back exactly if and only if each is delimitable and none followed by a short code ends in zero. |
| `AnnexB.SplitGivesTrimmed` | crates/foundation/cheetah-codec/src/rtp_es.rs:577-633 | Where units end in zero before a short code, they come back without that zero. |
| `AnnexB.LeadingBytesAreSkipped` | crates/foundation/cheetah-codec/src/rtp_es.rs:577-633 | Bytes before the first start code are passed over. |
| `AnnexB.ShortCodePayload` | crates/foundation/cheetah-codec/src/rtp_es.rs:583-587 | A payload with one three-byte code. |
| `RtpReorder.GapIsGivenUpIff` | crates/foundation/cheetah-codec/src/rtp_reorder.rs:78-131 | A gap is given up exactly when more packets wait than the settings allow, or more than 64, or one has waited long enough; then the least number comes first, and otherwise the packet waits, once. |
| `RtpReorder.LatePacketIsDropped` | crates/foundation/cheetah-codec/src/rtp_reorder.rs:151-190 | Half a period ahead or more counts as late. |

## Left out

- Codec-specific payload work in transport streams (access unit delimiters, parameter sets, ADTS wrapping and
  splitting, MPEG audio headers, AV1 sequence headers, G.711 durations): the muxer's rewriting is a function parameter,
  and the demuxer's opaque path is used for every codec, so the end-to-end results are for codecs that neither side
  looks into.
- Inferring the codec of a private stream and telling key frames from payloads: two function parameters of the
  demuxer's configuration.
- Resynchronising a transport stream through garbage that holds sync bytes 188 apart: what is recovered then depends
  on how much is buffered, and only termination and the new state are stated.
- The movie box of fragmented MP4 (sample entries, codec configuration): a function parameter lists its tracks.
- Child boxes with a 64-bit header that states a size of 8 to 15: the source would slice out of range there, and the
  model stops.
- Fmp4Mux.UsToTimescale: does not model 64-bit overflow of the product for times beyond any real stream; so too
  Fmp4Demux.TimescaleToUs, and the sums of decode times and track offsets.
- TsDemux.NextOffset: does not model 64-bit overflow of the wrap offset, which needs 2^30 wraps of the clock.
- RtpReorder.Extend: does not model 64-bit overflow of the extended number, which needs about 2^49 pushes.
- TsMux.SortTracks: the library's stable sort is modelled by insertion, not by its algorithm.
- TsRoundTrip.RunComesBack: pass-through codecs only, as the rest are rewritten on one side.
- Fmp4RoundTrip.StreamComesBack: payloads, order and key frame marks; the times are in the timing lemmas.
- The learned frame interval of the JT/T 1078 assembler: averages that reassembly does not use.
- Wall-clock stamp adjustment, the discontinuity judge and the second decode-time generator of the time module: single
  comparisons, easy beside the normalizer.
- Floating-point estimators, caption decoding, codec sniffing, SDP, AMF0 metadata, Ehome decoding and TCP framing.
- Error texts, logging and allocation.
