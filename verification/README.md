# gomedia: verified models

gomedia is a media toolkit: it reads RTP and MP4, repacketises, and writes MP4, HLS, RTP and WebRTC
streams. This project models its stateful, arithmetic-heavy parts in Dafny and proves what they are for.
Every component has a specification on values (functions that say what an operation does to a state),
theorems about all runs of that specification, and, where the program updates state in place, classes
whose methods and loops are proved to compute exactly the specification.

| files | component | main theorems |
|---|---|---|
| `RingTable`, `RingProtocol`, `RingRuns`, `RingAlloc`, `GrowingRing`, `Packets` | reference-counted ring allocator as a concurrent protocol of atomic steps, and its packets | slot safety in every interleaving; byte disjointness in calm runs and the exact condition for one call; no lost reclaim; packets read their data until released |
| `Mp4Tables`, `Mp4Muxer`, `Mp4ReadBack`, `Mp4Packets`, `Mp4Demuxer`, `Mp4Pictures`, `Mp4Writer` | MP4 tables, muxer strategies, demuxer | mux then walk; the file is a function of the packets; chunks tile; mux then demux; which H.265 pictures come back |
| `HlsModel`, `HlsInvariants`, `HlsRuns`, `HlsPlaylist`, `HlsMuxer` | HLS muxer | the invariant of every reachable state; durations; a client reads what was meant; discontinuity numbers stay, and when media numbers do |
| `ReaderModel`, `ReaderOrder`, `ReaderObjects` | timestamp stitching | timestamps strictly increase over every run, and for exactly which audio durations |
| `Bytes`, `Nal`, `Hevc`, `Rtp`, `RtpH264`, `RtpH264Stream`, `RtpH265`, `RtpH265Stream`, `RtpMuxers`, `RtpDemuxers`, `RtpSliced`, `Mjpeg`, `MjpegStream`, `MjpegObject` | NAL splitting, interleaved RTP, H.264, H.265, MJPEG | round trips with their exact conditions |
| `WebrtcBuffer`, `WebrtcBufferObject` | WebRTC group-of-pictures buffer | bounds, ownership, what a new peer gets |
| `SegmenterRing`, `Segmenter`, `SegmenterFiles`, `SegmenterLosses`, `SegmenterRingObject`, `SegmenterObject` | recording segmenter | ownership, bounds, files are the input, exactly which packets a failure loses |
| `Lifecycle` | both lifecycle managers | Release comes last and once, no deadlock, calls return |
| `Bits`, `BitsObject`, `AacConfig`, `AacConfigObject`, `AdtsHeader` | bit streams, AudioSpecificConfig, ADTS header | reads are slices; round trips with their exact conditions |

Conventions. Times are integers in nanoseconds. Channels, goroutines and locks become sequences of events
or interleaved atomic steps; the wall clock, the outcome of file operations and the parameter-set parsers
are arguments. Evicted, released or emitted values are kept in the state, so that ownership can be counted.
`Wrappers` holds the Option type. `A.B` names member B of module A; module and file have the same name, except that `RingAlloc.dfy` holds
`RingAllocator`.

Where the code differs from its documentation or its purpose the models follow the code; the differences, each with a
theorem that says when it shows:

- `Alloc` takes its wrap branch without asking whether the live slots already span the wrap point
  (utils/buffer/ring_alloc.go:258). `RingAllocator.AllocApartIff` and `OverlapTrace`.
- New codec parameters that arrive before a fragment of the segment closed leave a segment without EXTINF
  (format/hls/muxer.go:277-300); when it is evicted the media sequence numbers of later segments shift.
  `HlsPlaylist.NumberStaysIff` and `NumberChanges`.
- H.264 and H.265 parameter sets longer than the MTU are fragmented, and the receiver takes the reassembled
  set for a picture or reports an error (format/rtp/h264.go:146-173). `RtpH264.AccessUnitRoundTrip`,
  `RtpH265.PictureRoundTrip`, and `LongSetShows` in both modules.
- With the marker bit set, payload types 72 and 73 are taken for RTCP (format/rtp/base_demuxer.go:146-149).
  `Rtp.FrameRoundTrip`.
- After a reconnect audio packets can go out with equal timestamps, exactly when their durations may exceed
  990_000_002 ns (reader/offset_handler.go:24-37). `ReaderOrder.AscendsIff` and `LongAudioGoesBack`.
- A packet whose write fails, and what is left of a drained window after a failed flush, is neither written
  nor released (writer/segmenter/segmenter.go:789-791, 1052-1061). `SegmenterLosses.ArriveLoses`,
  `NothingLostIff` and `FailedFlushLoses`.
- A start function that panics leaves `doneChan` open, so Close never returns
  (utils/lifecycle/async.go:36-44). `Lifecycle.PanicBlocksClose` and `PanicTrace`.
- `ReadBits64` is documented for 0 to 64 bits, but loses set bits of the buffer when fetched and held bits
  exceed 64 (utils/bits/bits.go:31-37); `WriteBits64` splits a write right only when half of it fits
  (lines 86-98), and does not mask its operand (line 100). `Bits.ReadIsNext`, `SplitAppendsIff`, `WriteAppends`, with
  `WideReadLosesABit` and `WideValueSpills`.
- A demuxed H.264 sample of several slices gives back only the last one (format/mp4/stream.go:345-357).
  `Mp4ReadBack.SingleSliceReadsBack`.
- The demuxer keeps an H.265 picture until the next first slice once parameter sets came in front of one. A
  keyframe's parameter sets then end up behind the picture before it, or the last of them comes out alone, and
  the last picture is still kept when the end is reported: the flush at the top of the loop waits for the
  samples to be used up, and a stream whose samples are used up is not chosen any more
  (format/mp4/stream.go:311-322, format/mp4/demuxer.go:63-72). Slices of type 0 are documented as slices and
  dropped (format/mp4/stream.go:89-97). `Mp4Packets.ComesBackIff`, `LastIsLost`, `ThreePictures`,
  `Mp4Pictures.H265ReadsBack`.
- A dropped MJPEG frame leaves its restart interval to frames behind it whose type has none
  (format/rtp/mjpeg.go:132-146). `MjpegStream.OwnIntervalIff` and `DroppedLeavesInterval`.

## Model

| member | source | states |
|---|---|---|
| RingTable.PutFrame | utils/buffer/ring_alloc.go:247-301 | Writing one slot entry leaves every other index of a window of at most 4096 alone: indices share entries only a full table apart |
| RingTable.LaidDisjoint | utils/buffer/ring_alloc.go:229-240 | In a window laid out around the wrap point no two allocations share a byte |
| RingTable.RegionTestSound | utils/buffer/ring_alloc.go:234-240 | When the region test accepts bytes at the write cursor, they are clear of every region of the window it was taken from |
| RingTable.RegionTestComplete | utils/buffer/ring_alloc.go:234-240 | The region test refuses only bytes that are not clear |
| RingTable.EndAtWriteIsNewest | utils/buffer/ring_alloc.go:309-318 | Only the newest allocation can end at the write cursor, so Extend never grows an older one |
| RingTable.PlacedChain | utils/buffer/ring_alloc.go:286-300 | Publishing an allocation that fits keeps the window laid out |
| RingTable.WastedChain | utils/buffer/ring_alloc.go:258-276 | Publishing a waste entry keeps the window laid out if it holds none yet |
| RingTable.GrownChain | utils/buffer/ring_alloc.go:309-329 | Growing the newest allocation in place keeps the window laid out |
| RingProtocol.StepKeepsSlots | utils/buffer/ring_alloc.go:247-372 | One atomic step of any thread, whatever was interleaved before, keeps: counts equal outstanding owners, owned indices are in the window, the window fits 4096 entries, no negative count |
| RingProtocol.ProducerKeepsSlots | utils/buffer/ring_alloc.go:247-329 | Every load and store of Alloc and Extend keeps slot safety, however stale the cursors it loaded |
| RingProtocol.HeadAdvances | utils/buffer/ring_alloc.go:357-371 | head may pass an index whose count is 0 without breaking any count or any thread inside Release |
| RingRuns.RunsKeepSlots | utils/buffer/ring_alloc.go:247-372 | After every interleaving of one producer and any number of threads that release once, refs equal owners, tail - head is at most 4096 and the negative-count panic was not reached |
| RingRuns.HeadPassesOnlyReleased | utils/buffer/ring_alloc.go:345-372 | A step moves head by at most one, past an index in the window that has no owner and count 0 |
| RingRuns.OwnedEntryStays | utils/buffer/ring_alloc.go:286-329 | No step rewrites the entry of an index with an owner, except that Extend moves its end forward |
| RingRuns.StepKeepsBytes | utils/buffer/ring_alloc.go:221-329 | One calm step keeps the byte layout as seen from the producer's stale cursor; calm: a waste entry is published only when the window holds none |
| RingRuns.OwnedBytesAreDisjoint | utils/buffer/ring_alloc.go:221-329 | After every calm run two allocations with owners are disjoint ranges inside the slab |
| RingRuns.QuietMeansReclaimed | utils/buffer/ring_alloc.go:345-372 | With no Release in flight no released allocation stands in front of the first owned index: at or in front of every allocation in the window an index has an owner. No reclaim is lost |
| RingRuns.StepKeepsNoneLost | utils/buffer/ring_alloc.go:345-372 | While any allocation and all before it in the window are released, some thread inside Release will still look at head; every step keeps this |
| RingAllocator.SoloAllocIsDriven | utils/buffer/ring_alloc.go:247-301 | The steps of Alloc, undisturbed, add up to the call as a whole |
| RingAllocator.AllocApartIff | utils/buffer/ring_alloc.go:247-301 | The bytes of a successful Alloc are apart from every allocation in the window if and only if the request did not wrap while the window already spanned the wrap point |
| RingAllocator.OverlapTrace | utils/buffer/ring_alloc.go:257-276 | Alloc 90, Alloc 10, release the first, Alloc 50, Alloc 60 in 100 bytes: all succeed and the last shares bytes with the live 50 |
| RingAllocator.AdvanceHead | utils/buffer/ring_alloc.go:357-371 | head after Release stands at the first index that is not released, or at tail; nothing else changed |
| RingAllocator.RingAlloc.ReadCursor | utils/buffer/ring_alloc.go:221-227 | The start of the oldest entry, or the write position of an empty ring |
| RingAllocator.RingAlloc.Alloc | utils/buffer/ring_alloc.go:247-301 | On success the newest entry is exactly the returned bytes with one owner; the table is the one AllocApartIff speaks of |
| RingAllocator.RingAlloc.Extend | utils/buffer/ring_alloc.go:309-329 | The newest entry grows by n bytes exactly when it ends at the write cursor and the region test holds; else nothing changes |
| RingAllocator.RingAlloc.Retain | utils/buffer/ring_alloc.go:334-339 | One more owner of the index, nothing else |
| RingAllocator.RingAlloc.Release | utils/buffer/ring_alloc.go:345-372 | Panics exactly when no owner was left; else one owner less and head behind every released index in front |
| GrowingRing.GrowthMakesRoom | utils/buffer/ring_alloc.go:153-163 | Below its cap a new ring is strictly larger, never above the cap, and takes the request exactly when the request is not above the cap |
| GrowingRing.FreshTakes | utils/buffer/ring_alloc.go:182-200 | A new ring takes exactly the requests that fit its slab |
| GrowingRing.GrowingRingAlloc.Alloc | utils/buffer/ring_alloc.go:182-200 | Served by the current ring, or panic on an exhausted slot table, or refused at the cap, or moved to a new ring; handles into the old ring stay good |
| GrowingRing.GrowingRingAlloc.Extend | utils/buffer/ring_alloc.go:206-211 | A handle of a ring that has been replaced cannot grow |
| Packets.MoveIsEnabled | codec/packet.go:48-74 | Clients that release each packet once never break the rules of the ring: every Retain and Release finds an owner |
| Packets.StepAccounts | codec/packet.go:48-74 | The owners of a slot are the unreleased packets that share it and the producer's unfinished allocation; every client move keeps this |
| Packets.StillHolds | codec/packet.go:16-22 | What an owned region holds it holds after any calm step in the ring |
| Packets.FillIntact | codec/packet.go:16-22 | The producer filling one allocation changes no packet |
| Packets.StepKeeps | codec/packet.go:48-74 | Every client move, interleaved with every calm step inside the ring, leaves every unreleased packet reading its data |
| Packets.PacketsReadTheirData | codec/packet.go:48-82 | In every calm run a packet not yet released reads exactly what was put into it, and so does every clone, whatever happened to the original |
| Packets.CloneHasTheData | codec/packet.go:48-67 | A clone has the data and fields of its original; one that copies the data needs no slot and does not touch the ring |
| Packets.AllReleasedIsReclaimed | codec/packet.go:48-74 | In every run, calm or not, owners are packets; once all are released and no Release is in flight no allocation is left in the window: every index left is waste |
| Mp4Tables.ExpandAdd | format/mp4/stream.go:449-540 | Adding a value to a run-length table appends it to the sequence the table stands for |
| Mp4Tables.RunsStep | format/mp4/stream.go:255-303 | A run cursor reads the value of its sample and moves to the next; it runs out exactly behind the last |
| Mp4Tables.SyncListIs | format/mp4/stream.go:449-540 | The sync table is ascending and names exactly the keyframes |
| Mp4Tables.SyncReads | format/mp4/stream.go:309-357 | The sync cursor finds a sample to be a keyframe exactly when it was recorded as one |
| Mp4Tables.WalkStep | format/mp4/stream.go:227-303 | At sample i the five cursors are valid, read what was recorded of it, and move to sample i + 1; behind the last they report the end |
| Mp4Tables.WalkReadsWhatWasMuxed | format/mp4/stream.go:227-357 | For every sequence of samples the walk over the built tables visits exactly that many, the i-th with its offset, size, keyframe flag and summed duration; an empty sync table is dropped by the probe |
| Mp4Tables.ClampGap | format/mp4/stream.go:449-540 | Durations are positive and at most 5 s, and the gap itself in between |
| Mp4Tables.DtsLag | format/mp4/stream.go:19-81 | For unclamped gaps the decoding time of sample i lags the elapsed time by 0 up to less than i ticks |
| Mp4Muxer.FlushKeeps | format/mp4/muxer.go:283-375 | A flush, direct or batched, moves what is queued to the file and to the released packets; tables and held packets stay |
| Mp4Muxer.RunKeeps | format/mp4/muxer.go:247-328 | Every schedule of packets and flushes leaves the muxer where the packets alone put it |
| Mp4Muxer.FlushWritesAll | format/mp4/muxer.go:283-328 | After a flush the bytes of every recorded packet are in the file, the write position unchanged |
| Mp4Muxer.FileIsAFunctionOfPackets | format/mp4/muxer.go:283-494 | The finished file is one function of the packet sequence: any placement of flushes, direct or batched, fast or seek-and-patch trailer; every recorded packet is released once, in file order |
| Mp4ReadBack.StreamIsRecorded | format/mp4/stream.go:498-540 | The finished file records every packet of a stream once, in order, with the gap to its successor |
| Mp4ReadBack.AcceptedIsRecorded | format/mp4/muxer.go:247-277 | Each accepted packet is in the file, and released, once; one for a stream that does not exist is in neither |
| Mp4ReadBack.SampleIs | format/mp4/stream.go:449-540 | The i-th sample of a stream describes its i-th packet and points at that packet's bytes |
| Mp4ReadBack.ChunksTile | format/mp4/stream.go:498-538 | Every byte between header and write position belongs to exactly one sample of exactly one stream |
| Mp4ReadBack.FileReadsBack | format/mp4/stream.go:227-433 | Walking the tables of a finished file finds every packet of the stream: its bytes with parameter sets, its keyframe flag, its decoding time |
| Mp4ReadBack.PlainReadsBack | format/mp4/stream.go:415-422 | AAC and MJPEG packets read back as the original |
| Mp4ReadBack.SliceIsFound | format/mp4/stream.go:345-357 | Parameter sets in front of a keyframe do not disturb the search for its slice |
| Mp4ReadBack.SingleSliceReadsBack | format/mp4/stream.go:345-357 | An H.264 packet reads back as the original exactly when it is a single slice |
| Mp4Demuxer.Choose | format/mp4/demuxer.go:53-84 | The stream with the least decoding time among those with samples left, the first of equals; none exactly when all are at the end |
| Mp4Demuxer.ReadNextMerges | format/mp4/demuxer.go:53-84 | One call reads the next sample of the chosen stream and leaves the others where they are |
| Mp4Demuxer.RunMerges | format/mp4/demuxer.go:53-84 | Over any number of calls every stream comes in its own order, merged by time; the end is reported only when all has been read |
| Mp4Demuxer.DemuxReadsWhatWasMuxed | format/mp4/demuxer.go:53-139 | Mux then demux, over every packet sequence and placement of flushes: each packet once, per stream in order, merged by time |
| Mp4Demuxer.Stream.IncSampleIndex | format/mp4/stream.go:255-303 | The cursor fields updated in place are the cursor of the next sample |
| Mp4Demuxer.Stream.ReadPacket | format/mp4/stream.go:309-433 | The sample is read and cut in place into the packet of its codec, and the gathered picture kept, as the specification for which the track theorems are proved; the end with a picture left, a short file and an empty H.264 or H.265 sample are told apart |
| Mp4Demuxer.Stream.GatherUnits | format/mp4/stream.go:362-408 | The loop over the units leaves the packet and the gathered picture CutPicture speaks of |
| Mp4Demuxer.Stream.ReadSlices | format/mp4/stream.go:346-357 | The loop over the units leaves the last slice |
| Mp4Demuxer.Demuxer.ReadPacket | format/mp4/demuxer.go:53-84 | The loop over the streams chooses the one RunMerges speaks of; it alone reads a sample and changes, and its packet, or the end, comes back |
| Mp4Packets.PanicsIff | format/mp4/stream.go:346-363 | Reading a sample panics exactly when it is an empty one of H.264 or H.265 |
| Mp4Packets.CutPicture | format/mp4/stream.go:358-414 | A sample of an H.265 picture gives the picture gathered before with its own parameter sets and SEI behind; with none gathered, the last of these alone, or the picture itself when it has none in front |
| Mp4Packets.RunAnswers | format/mp4/stream.go:309-433 | For every H.265 track the answer to each call, and the picture left in the end |
| Mp4Packets.ComesBackIff | format/mp4/stream.go:358-433 | A picture comes back exactly when nothing stands in front of its first slice, all its units are of a kept type, and, if it stays gathered, a sample without units in front follows |
| Mp4Packets.LastIsLost | format/mp4/stream.go:311-322 | Once parameter sets were in front of a sample and every sample from there on has a slice, the last picture is still gathered at the end and never comes back |
| Mp4Packets.NilAnswer | format/mp4/stream.go:410-433 | No packet and no error come back exactly for a sample without slice or side unit while nothing is gathered |
| Mp4Packets.ThreePictures | format/mp4/stream.go:89-107 | A run in which a keyframe is preceded by its picture parameter set alone and a picture of type 0 slices is never seen |
| Mp4Pictures.RunCuts | format/mp4/demuxer.go:53-84 | Whatever the other streams and the order of reading, the packets of a stream are those its own samples make |
| Mp4Pictures.TimesAscendIff | format/mp4/stream.go:19-81 | The times of a track strictly increase exactly when no gap is above 0 and below a tick of 11111.1 ns |
| Mp4Pictures.H265ReadsBack | format/mp4/demuxer.go:53-84 | Mux, then demux to the end: every answer of an H.265 track; a picture is answered, at its one call, exactly when it survives as ComesBackIff says; and the picture still held |
| Mp4Writer.GrowTables | format/mp4/stream.go:449-540 | The five tables of any track, video or audio, appended to one by one, are those that WalkReadsWhatWasMuxed reads back |
| Mp4Writer.Muxer.WritePacket | format/mp4/muxer.go:247-253 | False, and nothing changed, exactly for a stream that does not exist; else the held packet is recorded with the gap to this one |
| Mp4Writer.Muxer.WritePendingDirect | format/mp4/muxer.go:332-354 | Writing length, parameter set and packet one by one puts the same bytes into the file as one write, and empties the queue |
| Mp4Writer.Muxer.CopyPendingInto | format/mp4/muxer.go:358-375 | The gathered buffer holds the payload of the queue behind what stood there, and ends where announced |
| Mp4Writer.Muxer.Flush | format/mp4/muxer.go:283-328 | Direct and batched leave the same file; batched with no bytes queued does nothing |
| Mp4Writer.Muxer.WriteTrailer | format/mp4/muxer.go:406-494 | One pass, or seeking back to patch the header: either leaves the file FileIsAFunctionOfPackets speaks of |
| Nal.SplitJoin | utils/nal/nal.go:76-128 | Units behind their 32-bit lengths split back into the non-empty ones in order |
| Nal.SplitWhole | utils/nal/nal.go:76-128 | Bytes that are neither length-prefixed nor begin with a start code are one unit |
| Nal.NextCode | utils/nal/nal.go:18-71 | The first start code at or after a position |
| Nal.SplitNALUs | utils/nal/nal.go:76-128 | The cursor loops find the units SplitJoin and SplitWhole speak of |
| Nal.ParseAnnexB | utils/nal/nal.go:36-71 | The Annex-B loop gives the non-empty stretches between start codes |
| HlsModel.NewConfig | format/hls/muxer.go:175-210 | A cap below the target is raised to the target |
| HlsModel.CountEvicts | format/hls/muxer.go:355-374 | Count eviction moves only the start of the live window and never takes the new, still empty segment, even with segmentCount 0 |
| HlsInvariants.EvictNumbers | format/hls/muxer.go:319-403 | After eviction the media and discontinuity sequence numbers are what was evicted, and the init cache holds exactly the versions of the live segments |
| HlsInvariants.WriteKeepsOk | format/hls/segment.go:84-108 | Writing to a segment keeps: closed fragments carry the exact time of their packets, the segment's time is that of its closed fragments |
| HlsInvariants.CloseOk | format/hls/segment.go:113-133 | closeSeg leaves a segment whose duration is the time of all its packets |
| HlsInvariants.WriteKeeps | format/hls/muxer.go:432-536 | WritePacket keeps the whole invariant: numbering, one open segment under the current codec and epoch, closed predecessors, relative timestamps, keyframe gate |
| HlsInvariants.UpdateKeeps | format/hls/muxer.go:265-314 | New codec parameters keep it too, announcing version changes by a discontinuity |
| HlsInvariants.Reachable | format/hls/muxer.go:37-536 | In every reachable state live segments are numbered without gap from the media sequence number, never none, each init version is cached, and while the header says independent every non-empty segment of a video stream opens on a keyframe |
| HlsRuns.TimelineIsOrdered | format/hls/muxer.go:464-478 | Between discontinuities timestamps are relative to one epoch, never negative and ordered as the input was |
| HlsRuns.EpochStays | format/hls/muxer.go:420-478 | A change of the timeline offset always opens a discontinuity segment |
| HlsRuns.WriteStoresOnce | format/hls/muxer.go:432-520 | A packet is stored once behind all others, or dropped at the gate and nowhere else |
| HlsRuns.NothingLost | format/hls/muxer.go:378-385 | Every accepted packet is in exactly one segment, in order of arrival: evicted and released, or live |
| HlsRuns.SegmentsStayWithin | format/hls/muxer.go:480-507 | When no video packet exceeds the limit (the cap under keyframe split, else the target) no segment does, and none exceeds the advertised target duration (section 4.3.3.1 of RFC 8216) |
| HlsRuns.DurationEvictionBounds | format/hls/muxer.go:332-350 | Duration eviction leaves at least the minimum closed, and less than the oldest segment above it or at most one closed segment |
| HlsRuns.CountEvictionBounds | format/hls/muxer.go:355-374 | Count eviction stops as soon as the list no longer exceeds both limits, and takes no segment after that |
| HlsPlaylist.ReadRender | format/hls/muxer.go:557-601 | A client that reads the rendered lines finds the listed segments, each under its own map line |
| HlsPlaylist.PlaylistReads | format/hls/muxer.go:557-601 | The current playlist reads as the live segments with an EXTINF: duration, map, discontinuity number, and media number |
| HlsPlaylist.UnlistedAreShortCuts | format/hls/muxer.go:265-300 | Segments without EXTINF are exactly those cut by a codec change before a fragment closed |
| HlsPlaylist.NumberStaysIff | format/hls/muxer.go:378-385 | A segment's media number changes between two moments exactly when an unlisted segment is evicted in between (section 4.3.3.2 of RFC 8216 asks for never) |
| HlsPlaylist.NumbersAreIds | format/hls/muxer.go:557-601 | Without such a codec change every segment is listed under its own id all its life, and only then is every segment listed |
| HlsPlaylist.NumberChanges | format/hls/muxer.go:277-300 | A concrete run in which segment 1 is listed first as number 0, then as number 1 |
| HlsPlaylist.DiscontinuityNumberStays | format/hls/muxer.go:378-385 | Between any two moments the discontinuity number of a segment, its flag and its map stay the same (section 4.3.3.3 of RFC 8216) |
| HlsPlaylist.EntryIs | format/hls/muxer.go:557-601 | Whatever a client reads of a segment is a closed live segment with its number, discontinuity number, map and duration |
| HlsPlaylist.ReadingsAgree | format/hls/muxer.go:378-601 | Two readings of the playlist at any two moments agree on discontinuity number, map and duration of every segment in both, and on its media number exactly when no unlisted segment was evicted in between |
| HlsMuxer.ShiftDown | format/hls/muxer.go:44-57 | Shifting the ids down in place drops the first and keeps the order of the rest |
| HlsMuxer.HlsMuxer.EvictOldest | format/hls/muxer.go:378-385 | Id list and map still hold the same segments after removal; the media number moves by one, the discontinuity number by the flag of the removed segment |
| HlsMuxer.HlsMuxer.EvictByDuration | format/hls/muxer.go:332-350 | The loop, summing live durations anew each time, stops at the segment for which DurationEvictionBounds holds; ids and map agree |
| HlsMuxer.HlsMuxer.EvictByCount | format/hls/muxer.go:355-374 | The loop stops at the segment for which CountEvictionBounds holds; ids and map agree |
| HlsMuxer.HlsMuxer.CleanupInitCache | format/hls/muxer.go:388-403 | Only the versions of live segments are kept |
| HlsMuxer.HlsMuxer.WritePacket | format/hls/muxer.go:432-536 | The fields after gate, timeline, rotation, write and playlist are those for which the invariant of all reachable states is proved, and Valid holds again |
| HlsMuxer.HlsMuxer.UpdateCodecParameters | format/hls/muxer.go:265-314 | Refused exactly when both parameters are absent; else the fields are those of a cut segment with its successor flagged as discontinuity, and Valid holds again |
| HlsMuxer.HlsMuxer.UpdateIndexM3u8 | format/hls/muxer.go:557-601 | The walk over ids writes a map line exactly where the init version changes: the lines PlaylistReads reads |
| ReaderOrder.LargestMultiple | reader/offset_handler.go:24-37 | Dividing and multiplying back gives the largest multiple of the duration up to a time |
| ReaderOrder.FloorAgain | reader/offset_handler.go:24-37 | Flooring by duration and then by 10 ms a time that is itself such a floor, 10 ms or more later, never goes back |
| ReaderOrder.GapStaysBehind | reader/offset_handler.go:24-37 | A reconnect at least a second after the held packet puts the next one not before the last emitted, for video of any frame duration and audio up to 990_000_002 ns |
| ReaderOrder.TakeStaysBehind | reader/reader.go:115-157 | What a handler emits lies behind what was emitted before, and the new held packet behind that |
| ReaderOrder.TimestampsIncrease | reader/reader.go:115-204 | Over every run of packets, rejected packets, clock wraps and reconnects the emitted timestamps of each track strictly increase (audio up to 990_000_002 ns), and video durations tile exactly except over a reconnect |
| ReaderOrder.NothingLost | reader/reader.go:100-162 | Each packet read has been emitted once, released once, or is held; after a stop nothing is held |
| ReaderOrder.AscendsIff | reader/offset_handler.go:24-37 | Audio durations bounded by D keep the timestamps of both tracks increasing in every run if and only if D is at most 990_000_002 ns |
| ReaderOrder.LongAudioGoesBack | reader/offset_handler.go:24-37 | With audio packets of 990_000_003 ns, the least that is too long, a concrete run emits two packets with the same timestamp |
| ReaderOrder.WaitsDouble | reader/reader.go:169-221 | In every run the wait before a reconnect is 1, 2, 4, 8, 8, ... seconds by the number of failed attempts since the source was last opened |
| ReaderObjects.OffsetHandler.RecalcForGap | reader/offset_handler.go:24-37 | The held packet is released, and the offset is the floored time since it came |
| ReaderObjects.OffsetHandler.CheckEmptyPacket | reader/offset_handler.go:39-47 | Takes and holds the packet exactly when none is held, at the current offset |
| ReaderObjects.OffsetHandler.CheckTSWrap | reader/offset_handler.go:54-65 | Both offsets move exactly when the source clock fell back by more than a minute |
| ReaderObjects.OffsetHandler.ApplyToPkt | reader/offset_handler.go:49-52 | The shift keeps every distance between packets; after the wrap check it decides, as the whole step does, whether the packet is sent, and is then the packet held |
| ReaderObjects.Repacker.HandlePacket | reader/reader.go:115-157 | Held, emitted and released packets after one packet are those for which TimestampsIncrease and NothingLost are proved |
| ReaderObjects.Repacker.HandleReadError | reader/reader.go:169-205 | A successful reopening moves both handlers across the gap and resets the interval; a failed one doubles it and leaves the handlers |
| ReaderObjects.Repacker.UpdateReconnectInterval | reader/reader.go:207-221 | From the wait after n failed attempts it goes to the wait after n + 1, of 1, 2, 4, 8, 8, ... seconds |
| ReaderObjects.Repacker.Repack | reader/reader.go:68-162 | The read loop, left at the first stop, ends in the state TimestampsIncrease and NothingLost speak of |
| Rtp.FrameRoundTrip | format/rtp/base_demuxer.go:86-149 | A frame of the muxer is read back, payload and timestamp, with the stream behind it left, exactly when the length fits 16 bits and the type byte is not taken for RTCP |
| Rtp.StreamRoundTrip | format/rtp/base_muxer.go:59-96 | Any number of packets framed one after the other read back in order, sequence numbers wrapping |
| Rtp.TimeLoss | format/rtp/base_muxer.go:59-96 | At 90 kHz, below 2^32 ticks, a time comes back 0 to 11112 ns early |
| Rtp.BaseMuxer.WriteRTP | format/rtp/base_muxer.go:59-96 | The bytes put into the reused buffer are the frame; the sequence number advances by one |
| RtpH264.FeedWhole | format/rtp/hxxx_demuxer.go:25-37 | A payload that begins with a non-zero byte passes the splitter whole |
| RtpH264.FeedFragment | format/rtp/h264.go:117-173 | One FU-A fragment joins those gathered; the last one completes the unit |
| RtpH264.FeedSlice | format/rtp/h264.go:64-207 | A slice, fragmented or not, comes out behind its length with its keyframe flag |
| RtpH264.FeedParameterSet | format/rtp/h264.go:64-85 | A known parameter set in one packet leaves no trace; fragmented it is an error or comes out as a packet |
| RtpH264.AccessUnitRoundTrip | format/rtp/h264.go:61-207 | For every access unit of slices and every MTU below 65536 the receiver gives back its units in order without error, exactly when no parameter set of a keyframe was fragmented |
| RtpH264.LongSetShows | format/rtp/h264_muxer.go:47-152 | With a parameter set of 6 bytes, a keyframe and an MTU of 5 the round trip fails |
| RtpH264.FragmentShape | format/rtp/h264_muxer.go:47-152 | No fragment exceeds the MTU; S only on the first, E and the marker only on the last (section 5.8 of RFC 6184) |
| RtpH264.CutInTwo | format/rtp/h264_muxer.go:90-152 | A unit that is cut gives at least two fragments, S and E on different ones |
| RtpH264.MarkerOnLast | format/rtp/h264_muxer.go:47-152 | Of all packets of an access unit only the last has the marker |
| RtpH264Stream.FramableWhenSmall | format/rtp/h264_muxer.go:47-152 | For MTUs up to 65523 and payload types other than 72 and 73 every packet can be framed |
| RtpH264Stream.StreamGivesBack | format/rtp/h264.go:61-241 | Any sequence of access units sent over one interleaved stream is received whole, in order, without error |
| RtpH265.FeedUnit | format/rtp/h265.go:171-241 | A unit, fragmented or not, has the same effect on the picture being put together |
| RtpH265.FeedPicture | format/rtp/h265.go:28-123 | A picture makes the one before it ready and is itself gathered unit by unit |
| RtpH265.FeedSets | format/rtp/h265.go:171-292 | Parameter sets in front of a keyframe leave no trace exactly when none is fragmented |
| RtpH265.PictureRoundTrip | format/rtp/h265.go:28-241 | The previous picture comes out as it is, the next is gathered byte for byte behind its lengths, exactly when no parameter set was fragmented |
| RtpH265.LongSetShows | format/rtp/h265_muxer.go:49-155 | With a parameter set of 7 bytes, a keyframe and an MTU of 6 the picture does not come through as it is |
| RtpH265.SequenceRoundTrip | format/rtp/h265.go:171-241 | For every sequence of pictures each is emitted whole and in order once the next begins (section 4.4.3 of RFC 7798) |
| RtpH265.FragmentShape | format/rtp/h265_muxer.go:95-155 | No fragment exceeds the MTU; S only on the first, E and the marker only on the last (section 4.4.3 of RFC 7798) |
| RtpH265.CutInTwo | format/rtp/h265_muxer.go:95-155 | A unit that is cut gives at least two fragments, S and E on different ones |
| RtpH265Stream.FramableWhenSmall | format/rtp/h265_muxer.go:49-155 | For MTUs from 4 up to 65523 and payload types other than 72 and 73 every packet can be framed |
| RtpH265Stream.StreamGivesBack | format/rtp/h265.go:171-241 | Any sequence of pictures sent over one interleaved stream is received whole, in order, without error, the last one still gathered |
| RtpMuxers.H264Muxer.WritePacket | format/rtp/h264_muxer.go:47-152 | The fragmentation loop over the shared buffer writes, for every access unit and MTU, exactly the framed packets the round trip is proved for |
| RtpMuxers.H265Muxer.WritePacket | format/rtp/h265_muxer.go:49-155 | The fragmentation loop over the shared buffer writes, for every access unit and MTU, exactly the framed packets the round trip is proved for |
| RtpMuxers.BaseDemuxer.ReadPacket | format/rtp/base_demuxer.go:86-141 | The payload bounds found in place are those FrameRoundTrip speaks of; false exactly for RTCP, at the end, or without a frame |
| RtpDemuxers.H264Demuxer.ReadPacket | format/rtp/h264.go:218-241 | A waiting packet is handed out first and nothing else happens; else exactly one frame is read and processed |
| RtpDemuxers.H264Demuxer.ProcessLFUA | format/rtp/h264.go:117-142 | A start fragment begins the shared buffer anew, others join it once begun, the end one completes the unit: the state FeedFragment speaks of |
| RtpDemuxers.H264Demuxer.FinalizeFUAPacket | format/rtp/h264.go:146-173 | A completed slice is emitted with its keyframe flag; a completed parameter set goes through the nested splitter |
| RtpDemuxers.H265Demuxer.ReadPacket | format/rtp/h265.go:171-241 | A waiting packet is handed out first and nothing else happens; else exactly one frame is read and processed |
| RtpSliced.SlicedPacket.AppendToPacket | format/rtp/h265.go:71-123 | In the memory of the growing ring: the bytes of the picture are followed by the unit behind its length; the slot grows in place exactly when it is the newest and there is room, else the bytes move, to a new slot or a slice, and the old slot is released; no other byte of the ring changes; panics exactly on a full slot table |
| WebrtcBuffer.AddCounted | writer/webrtc/buffer.go:26-103 | The duration counters stay the sums of what they stand for |
| WebrtcBuffer.AddKeeps | writer/webrtc/buffer.go:26-103 | Any packet keeps: each group opens with its only keyframe, no group exceeds the cap, the total is under twice the cap, a total at the target never falls below it; refused exactly before the first keyframe |
| WebrtcBuffer.AddOwns | writer/webrtc/buffer.go:26-103 | An accepted packet is kept or released, once; a refused one stays the caller's |
| WebrtcBuffer.ClearOwns | writer/webrtc/buffer.go:162-180 | Reset and Close release everything kept, once |
| WebrtcBuffer.PeerGetsTheRest | writer/webrtc/buffer.go:105-160 | For ordered arrivals the second part is a suffix of everything kept with every packet later than ts, and the video of both parts together is all video from one keyframe on |
| WebrtcBuffer.AddInOrder | writer/webrtc/buffer.go:26-103 | Arrivals that do not go back leave the kept packets in order |
| WebrtcBuffer.RunKeeps | writer/webrtc/buffer.go:26-103 | All of this over every run from an empty buffer |
| WebrtcBuffer.RunGivesTheRest | writer/webrtc/buffer.go:26-160 | Over every run of arrivals that never go back: what a new peer gets, for any time, is what PeerGetsTheRest says of the groups kept |
| WebrtcBuffer.FirstAfter | writer/webrtc/buffer.go:105-160 | The first group that begins later than ts |
| WebrtcBufferObject.Buffer.AddPacket | writer/webrtc/buffer.go:26-45 | The groups and counters after a packet are those for which AddKeeps and AddOwns are proved; refused exactly before the first keyframe |
| WebrtcBufferObject.Buffer.AdjustHardCap | writer/webrtc/buffer.go:59-73 | The two loops drop oldest groups while the others alone reach the cap, then, of a single group over the cap, the packets behind its keyframe, releasing each once |
| WebrtcBufferObject.Buffer.ShiftSingleGOP | writer/webrtc/buffer.go:83-103 | Packets move down by one place behind the keyframe; false exactly when there is none to give up |
| WebrtcBufferObject.Buffer.GetBuffer | writer/webrtc/buffer.go:105-160 | The walk over groups and packets gives the two parts PeerGetsTheRest speaks of and changes nothing |
| WebrtcBufferObject.Buffer.Reset | writer/webrtc/buffer.go:162-180 | Everything kept is released and nothing is left: the state ClearOwns speaks of |
| SegmenterRing.LimitsHold | writer/segmenter/segmenter.go:119-131 | Afterwards bytes, duration and count are within the limits or one packet is left; the leading packet stays, and so does the newest if any other does |
| SegmenterRing.DropWhileKeeps | writer/segmenter/segmenter.go:102-131 | Enforcing one limit breaks no other and keeps the counters sums |
| SegmenterRing.TrimKeeps | writer/segmenter/segmenter.go:149-178 | After a trim the window starts where it did or on a keyframe |
| SegmenterRing.KeyframeIsThere | writer/segmenter/segmenter.go:133-178 | After a keyframe came in one is in the window, unless the limits left a single other packet |
| SegmenterRing.AddTrimOwns | writer/segmenter/segmenter.go:102-178 | Each packet stays in the window or is released, once |
| SegmenterRingObject.RingBuffer.DropPacketAt | writer/segmenter/segmenter.go:102-117 | The packets behind move down by one place, the dropped one is released, and the counters lose its size and time |
| SegmenterRingObject.RingBuffer.EnforceLimits | writer/segmenter/segmenter.go:119-131 | The three loops end in the window LimitsHold speaks of, everything dropped released |
| SegmenterRingObject.RingBuffer.Add | writer/segmenter/segmenter.go:133-144 | The packet joins the window and its counters, and the limits are enforced: the state LimitsHold speaks of |
| SegmenterRingObject.RingBuffer.Trim | writer/segmenter/segmenter.go:149-178 | Whatever is cut in front is released, and what is left is the window TrimKeeps speaks of |
| SegmenterRingObject.RingBuffer.Drain | writer/segmenter/segmenter.go:189-195 | Hands all packets over, releasing none |
| SegmenterRingObject.RingBuffer.Clear | writer/segmenter/segmenter.go:180-187 | Everything in the window is released and nothing is left |
| Segmenter.ArriveOwns | writer/segmenter/segmenter.go:763-1069 | A packet that arrives, in either mode and whatever fails, is in exactly one place: window, file, released, or lost to a failed write |
| Segmenter.StopOwns | writer/segmenter/segmenter.go:1102-1148 | Stopping loses and duplicates nothing |
| Segmenter.NothingDuplicated | writer/segmenter/segmenter.go:552-1148 | The same over every run |
| Segmenter.KeyFrom | writer/segmenter/segmenter.go:1086-1097 | The first keyframe that does not start before the end of the last recording |
| SegmenterFiles.WindowStaysBounded | writer/segmenter/segmenter.go:102-195 | In every run the counters are sums (so the guards against negative values never act) and the limits hold unless one packet is left |
| SegmenterLosses.NothingLost | writer/segmenter/segmenter.go:763-1069 | While no write and no flush fails no packet is lost, whatever else fails |
| SegmenterLosses.AlwaysLoses | writer/segmenter/segmenter.go:763-805 | In Always mode the packet that arrives is lost exactly when a file takes it and writing it fails |
| SegmenterLosses.ActiveLoses | writer/segmenter/segmenter.go:866-980 | While an event is recorded the packet is lost exactly when it is to be written, not kept for the next event, no failing cut leaves it unwritten, and writing it fails |
| SegmenterLosses.ReplayLoses | writer/segmenter/segmenter.go:1010-1069 | A replay given up at packet i loses packet i if its write failed, and what lies behind i if a flush or a cut did |
| SegmenterLosses.StartLoses | writer/segmenter/segmenter.go:991-1069 | Starting a recording loses what the replay of the drained window from its start index loses, nothing when no file opens |
| SegmenterLosses.ArriveLoses | writer/segmenter/segmenter.go:552-1069 | A packet that arrives, in either mode and whatever fails, makes exactly the listed packets be lost, in order |
| SegmenterLosses.NothingLostIff | writer/segmenter/segmenter.go:789-791 | Nothing is lost exactly when no failing write is reached, and no failing flush or cut with packets of the window still left, in both modes |
| SegmenterLosses.RunLoses | writer/segmenter/segmenter.go:552-1148 | Over every run the packets lost are those each arrival lost, in order |
| SegmenterLosses.RunLosesNothingIff | writer/segmenter/segmenter.go:552-1148 | A run loses nothing exactly when no arrival reaches such a failure |
| SegmenterLosses.FailedFlushLoses | writer/segmenter/segmenter.go:1052-1061 | A run of three packets and one failing flush: two packets are neither in a file nor released |
| SegmenterFiles.AlwaysDoes | writer/segmenter/segmenter.go:763-805 | Without failures a packet extends the file, or, a keyframe past the target, closes it and begins the next, or waits for the first keyframe |
| SegmenterFiles.FilesAreTheInput | writer/segmenter/segmenter.go:763-805 | Recording always, without failures and new codec parameters, the files concatenate to the input from the first keyframe on; each begins with a keyframe and is cut at the first keyframe past the target |
| SegmenterFiles.RecordingStart | writer/segmenter/segmenter.go:1071-1097 | A recording starts on a keyframe if the window has one, at or after the end of the last recording if any is, and then on the first such |
| SegmenterFiles.EventOpensOnKeyframe | writer/segmenter/segmenter.go:991-1069 | A recording started by a keyframe opens on a keyframe, unless the limits left only another packet |
| SegmenterFiles.ReplayWrites | writer/segmenter/segmenter.go:1010-1069 | Without failures the drained window is written in order, and every file cut on the way has reached the target |
| SegmenterObject.Recorder.HandleAlways | writer/segmenter/segmenter.go:763-805 | File, closed files and released packets after a packet are those for which FilesAreTheInput and ArriveOwns are proved, whatever fails |
| SegmenterObject.Recorder.HandleActiveFile | writer/segmenter/segmenter.go:866-920 | While an event is recorded: cut at keyframes past the target, end after post-roll or the maximum, else write; the state ArriveOwns speaks of |
| SegmenterObject.Recorder.EndEventSession | writer/segmenter/segmenter.go:944-980 | The file is closed, the end of the recording remembered, and the packet kept in the window for the next event |
| SegmenterObject.Recorder.StartEventRecording | writer/segmenter/segmenter.go:991-1069 | The window is drained, what lies before the start released, the rest replayed into files or lost to a failure, exactly as ReplayWrites and ArriveOwns assume |
| SegmenterObject.Recorder.CloseSegment | writer/segmenter/segmenter.go:463-511 | A file that is empty, too short or without trailer is removed, any other kept; false exactly when the trailer of a file worth keeping failed |
| SegmenterObject.Recorder.FindStart | writer/segmenter/segmenter.go:1071-1097 | The two searches find the place RecordingStart speaks of |
| SegmenterObject.Recorder.Arrive | writer/segmenter/segmenter.go:552-718 | A packet in either mode, with codec changes, leaves the recorder in the state ArriveOwns and WindowStaysBounded speak of |
| Lifecycle.StepKeeps | utils/lifecycle/async.go:29-80 | Each operation of any thread keeps: one holder per Once, channel counts follow from both Onces and the goroutine |
| Lifecycle.ReleaseComesLast | utils/lifecycle/async.go:29-80 | For any number of threads and every interleaving neither channel is closed twice, Release runs at most once, no step runs during or after it |
| Lifecycle.NoDeadlock | utils/lifecycle/async.go:71-80 | Unless the start function panicked, while a call has not returned some thread can move |
| Lifecycle.PanicBlocksClose | utils/lifecycle/async.go:36-44 | After a panic of the start function Close waits for good and Release is never called |
| Lifecycle.CallsReturn | utils/lifecycle/async_failsafe.go:29-80 | Once no new calls come and steps break, a bounded number of actions is left, so every call returns |
| Lifecycle.ClosedIsReleased | utils/lifecycle/async.go:71-80 | In every interleaving, once any call of Close has returned, both channels are closed and Release has run, each once, and no step runs again |
| Lifecycle.PanicTrace | utils/lifecycle/async.go:36-44 | A run: the start function panics, the Close behind it waits, and nothing can move |
| Mjpeg.MainHeader | format/rtp/mjpeg.go:118-186 | The fixed header is read back whatever optional headers follow (section 3.1 of RFC 2435) |
| Mjpeg.TablesRead | format/rtp/mjpeg.go:118-186 | A table header is read back; one without data stands for the table kept for its quality, if any (section 3.1.8 of RFC 2435) |
| Mjpeg.ParseFirst | format/rtp/mjpeg.go:118-229 | The fragment with offset 0 starts the frame over, with headers rebuilt from what it says and its own tables, or those kept for its quality when it carries none |
| Mjpeg.ParseLater | format/rtp/mjpeg.go:187-229 | A later fragment joins its frame |
| Mjpeg.ParseStray | format/rtp/mjpeg.go:209-213 | A later fragment of another frame than the current one drops what is held, without an error |
| Mjpeg.SortMatches | format/rtp/mjpeg.go:234-304 | Sorting fragments by offset puts them in the order of the frame, whatever order they came in |
| Mjpeg.GatherIndices | format/rtp/mjpeg.go:234-304 | Ordered fragments gather to the scan data exactly when none is missing |
| Mjpeg.FrameRoundTrip | format/rtp/mjpeg.go:187-304 | For every frame, with or without tables: first fragment first, marked one last, the rest in any order; with all there, one packet of headers and exact scan data with an end marker; with any missing, none, and its restart interval stays |
| MjpegStream.StreamGivesFrames | format/rtp/mjpeg.go:118-304 | Whatever arrives of frames with different timestamps, lost, late or mixed, but nothing twice: no error, and one packet for each frame that comes in one go and no other, with its own tables or, when it sent none, those that last arrived for its quality |
| MjpegStream.ComesOutIff | format/rtp/mjpeg.go:118-304 | A frame comes out exactly when its fragments arrive one right behind the other, first one first, marked one last and none missing; and never twice |
| MjpegStream.UnmixedIff | format/rtp/mjpeg.go:118-304 | When frames do not mix: a frame comes out exactly when its first fragment arrives first, its marked one last and none is missing |
| MjpegStream.StrayFollows | format/rtp/mjpeg.go:209-213 | A fragment whose frame did not begin, or was left for another, drops what is held and notes its restart interval: the state after it is the one StreamGivesFrames speaks of |
| MjpegStream.OwnIntervalIff | format/rtp/mjpeg.go:118-186 | A frame is rebuilt with its own restart interval, none if its type has none, exactly when its type has one or no fragment before left one behind |
| MjpegStream.DroppedLeavesInterval | format/rtp/mjpeg.go:132-146 | After the loss of all but the first fragment of a frame with a restart interval the next frame, of a type without one, is rebuilt with that interval |
| MjpegStream.TableIsReused | format/rtp/mjpeg.go:118-186 | The second of two frames of one quality, sent without tables, is rebuilt with those of the first |
| MjpegObject.MjpegDemuxer.SortFragments | format/rtp/mjpeg.go:234-304 | The in-place exchange of fragments ends in the order by offset that SortMatches speaks of |
| MjpegObject.MjpegDemuxer.GatherFragments | format/rtp/mjpeg.go:234-304 | The loop finds the gap, or the data |
| MjpegObject.MjpegDemuxer.AssembleFrame | format/rtp/mjpeg.go:234-304 | The fragments are used up; a packet is queued exactly when they gather without gap from offset 0 |
| MjpegObject.MjpegDemuxer.ParseMJPEGPacket | format/rtp/mjpeg.go:118-230 | Fragments, cached tables and queue after a payload are those FrameRoundTrip speaks of |
| Bits.ValCut | utils/bits/bits.go:20-42 | Shifting a number right and masking it are cutting its bits |
| Bits.ShiftInAppends | utils/bits/bits.go:31-37 | Bytes shifted into the 64-bit word append their bits, and the last 64 are kept |
| Bits.ReadIsNext | utils/bits/bits.go:20-42 | For every width up to 64: fails exactly when the bytes run out; else the bits behind stay, and the value is that of the next bits exactly when no set bit was pushed out of the word, which no width up to 57 does |
| Bits.ReadsAreSlices | utils/bits/bits.go:20-42 | Reads of any widths up to 57 give the consecutive most-significant-first slices of the bytes and fail where they run out |
| Bits.WideReadLosesABit | utils/bits/bits.go:31-37 | A read of 58 bits with one bit held returns a wrong value |
| Bits.PutBits | utils/bits/bits.go:99-101 | What one shift-and-or writes, its operand too wide or not |
| Bits.WriteAppends | utils/bits/bits.go:84-102 | With room in the buffer the low bits follow those written exactly when every higher bit meets a set bit; always when there are none |
| Bits.WideValueSpills | utils/bits/bits.go:99-101 | Writing the low bit of 2 behind a 0 held changes that 0 to a 1 |
| Bits.SplitAppendsIff | utils/bits/bits.go:86-98 | Without room, every value of n bits is appended right exactly when half of its bits fit |
| Bits.FlushAppends | utils/bits/bits.go:123-140 | A flush loses nothing and pads with zero bits to a whole byte |
| BitsObject.BitReader.ReadBits64 | utils/bits/bits.go:20-42 | The loop that shifts fetched bytes in leaves the buffer and the value ReadIsNext speaks of, or none at the end |
| BitsObject.BitWriter.WriteBits64 | utils/bits/bits.go:84-102 | Buffer and output after a write, split or not, are those WriteAppends and SplitAppendsIff speak of |
| BitsObject.BitWriter.FlushBits | utils/bits/bits.go:123-140 | The loop that shifts bytes out emits exactly the buffered bits, padded: the bytes FlushAppends speaks of |
| AacConfig.ReadTypeBits | codec/aac/parser.go:240-253 | Types below 96 other than 31 are read from their 5 or 11 bits |
| AacConfig.ReadRateBits | codec/aac/parser.go:276-288 | The index, and with index 15 the 24-bit rate, are read |
| AacConfig.ParsesBits | codec/aac/parser.go:314-349 | Bytes that begin with the bits of a configuration parse to it, whatever follows (section 1.6.2.1 of ISO/IEC 14496-3) |
| AacConfig.ParsedIsCarried | codec/aac/parser.go:314-349 | Whatever parses is something the format carries: rate and layout those of the tables |
| AacConfig.WritesBits | codec/aac/parser.go:351-383 | The fields written are the bits of the format, indices filled in from the tables |
| AacConfig.RoundTrip | codec/aac/parser.go:314-393 | Writing then parsing gives the configuration back, its indices filled in, exactly when the format can carry it |
| AacConfig.TablesAreEnough | codec/aac/parser.go:361-380 | A rate and a layout from the tables are enough; their indices are found |
| AacConfig.NotCarried | codec/aac/parser.go:255-307 | Object type 31, a 25-bit rate and a rate of no table do not come back |
| AacConfigObject.Lookup | codec/aac/parser.go:361-380 | The loop finds the place of a table entry, or keeps the default |
| AacConfigObject.WriteMPEG4AudioConfig | codec/aac/parser.go:351-393 | The bytes are those of the specification, and parse back exactly when the format can carry the configuration |
| AacConfigObject.ParseMPEG4AudioConfigBytes | codec/aac/parser.go:314-349 | The result is that of the specification, one error per missing field |
| AdtsHeader.RoundTrip | codec/aac/parser.go:134-235 | A filled ADTS header, whatever stood in the buffer, parses to its lengths, and to type and sample count exactly for the types 1 to 4 and at most 4096 samples |
| AdtsHeader.FillADTSHeader | codec/aac/parser.go:185-235 | In place; refused exactly for what the format or the tables do not allow, the buffer then unchanged; bytes behind the header stay |

## Left out

- RingRuns.OwnedBytesAreDisjoint: holds for calm runs only, because Alloc wraps unconditionally; the exact condition is proved for a call from a laid-out window (AllocApartIff), not for each of its atomic steps.
- Packets.PacketsReadTheirData: needs the same calm runs; a packet's contents are filled before it is emitted, and writing them is one step.
- RingProtocol.StepKeepsSlots: cursors are unbounded, so the wrap-around of a 64-bit head after 2^64 slots, and slot bounds above 2^31 held in 32 bits, are not modelled.
- RingAllocator.RingAlloc.Release: runs from one thread; the interleaved Release is that of RingProtocol.
- GrowingRing.GrowingRingAlloc.Alloc: the budget computation in floating point that chooses its cap is a parameter.
- Mp4Muxer.FileIsAFunctionOfPackets: writers never fail, and the moov atom is any function of the tracks' tables; atom marshalling and 32-bit counts above 2^32 are not modelled.
- Mp4ReadBack.SingleSliceReadsBack: units are non-empty.
- Mp4Pictures.H265ReadsBack: tracks whose samples hold at most one first slice, and no other slice in front of it; samples are shorter than 4 GB, and the codec parameters of a packet are data, key flag and time.
- Mp4Tables.DtsLag: gaps outside (0, 5 s] are clamped by the muxer, so no lag is claimed for them.
- HlsMuxer.HlsMuxer.WritePacket: segments and fragments are values in the map, not shared objects; a nil packet and a codec without init segment are not modelled.
- HlsRuns.SegmentsStayWithin: under keyframe split without a cap there is no limit to keep.
- HlsRuns.NothingLost: durations are not negative; the fragment ids of a segment are counted past 255.
- HlsPlaylist.PlaylistReads: blocking playlist requests, program-date-time, the master playlist and the bytes of fragments are not modelled.
- ReaderOrder.TimestampsIncrease: the bound on audio durations is the exact one of AscendsIff; source timestamps may be any integers, durations are not negative, and a reconnect lasts at least the reconnect interval of a second.
- Rtp.FrameRoundTrip: a write to the connection is never short; a header that points outside its packet is one outcome, OutOfRange.
- RtpH264.AccessUnitRoundTrip: an MTU of 1 or 2 leaves no room for fragments, and then units below 16 MB are meant; aggregation packets are received as in the code, but the muxer never sends them.
- RtpH265.SequenceRoundTrip: an MTU of 2 or 3 leaves no room for fragments, and then units below 64 KB are meant; the second header byte is not 0, as the standard requires, and the units are neither parameter sets nor SEI.
- RtpDemuxers.H265Demuxer.ReadPacket: the data of a picture is a value; RtpSliced shows that each of the three ways to extend it in memory gives that value.
- RtpSliced.SlicedPacket.AppendToPacket: one thread; releases of other packets at the same time are those of RingProtocol.
- Nal.SplitNALUs: no Annex-B round trip, because a 4-byte start code reads as a length of 1 and is taken for length-prefixed data (utils/nal/nal.go:86).
- Mjpeg.FrameRoundTrip: the JPEG header and Huffman table builders are any function of what the first fragment says; two fragments with the same offset are not delivered.
- MjpegStream.StreamGivesFrames: frames have different timestamps, and no fragment arrives twice.
- WebrtcBuffer.AddKeeps: packets are no longer than the cap exceeds the target, as with durations up to 1 s and a cap of target plus 1 s.
- Segmenter.NothingDuplicated: which operation fails, the clock, and the decision to flush pending bytes are inputs; status and file-info channels are not modelled.
- SegmenterFiles.FilesAreTheInput: event mode has ReplayWrites, RecordingStart and EventOpensOnKeyframe instead, since post-roll and limits cut its files by time.
- SegmenterObject.Recorder.Arrive: one source; adding, removing and switching the mode of several sources is Stop and Init on each.
- Segmenter.StopOwns: a mode change whose file fails to close returns early, with window and mode as they were (writer/segmenter/segmenter.go:563-570); Stop always clears the window.
- Lifecycle.ReleaseComesLast: Close is not called from inside a step, and a step returns.
- Bits.WriteBits: the writer below never fails; errors of the reader below other than the end are not modelled.
- AacConfigObject.WriteMPEG4AudioConfig: a nil writer and failing writes are not modelled.
- AdtsHeader.FillADTSHeader: its error texts are one refusal.
- Sockets, RTSP and SDP, HTTP, WebRTC negotiation, loggers, cgo codecs, G.711 and the resampler: plumbing, foreign code or floating point.
- The floating-point ring and muxer budgets of the segmenter and the stream sorting of the WebRTC writer: nothing the code guarantees is lost with them.
