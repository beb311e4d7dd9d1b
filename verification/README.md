# Models of the player's demuxing, playlist, channel and recording logic

This Dafny project models the parts of the player whose state is easiest to get wrong, and proves
what they promise. Each module follows one part of the C sources, in the form the C code has: the
packet cache, the RealAudio buffer, the seek index, the playlist and the recorder are classes whose
methods update fields, the parsers and searches are methods with loops. Every method is proved
against a specification on values, and the promises are proved as lemmas about that specification.

* **Packet cache** (`demux/demux.c`). `PacketQueue` is one stream's queue in one cached range: packets, the
  thinning seek index, the keyframe range being filled and the queue's window. `QueueHistory` says what its
  window and its order mean, `SeekIndex` searches it, `RangeJoin` joins two queues, `RefreshSeek` resumes one,
  `Pruning` drops its head. `CachedRanges` has the streams and the use-ordered ranges as values, and
  `DemuxCache` has the class `Demuxer`, whose `Valid()` is the consistency check that the source keeps
  disabled (lines 299-375) together with the index invariant. All of its operations keep `Valid()`.
  `CacheGuarantees` says what the operations mean for a reader. `CacheRuns` puts them together to runs of the
  cache; over these, `SeekCompleteness` proves seeks complete, `KnownOrder` that streams counted as ordered
  are, and `CacheCounterexamples` shows where others go wrong. `DemuxProtocol` proves the absence of stale
  packets and, for ordered sources, of gaps over every interleaving of the reader and the demuxer thread,
  whose steps are the code between two points where the lock is dropped; `OvertakenEnd` is a run of it.
* **Matroska** (`demux/ebml.c`, `demux/demux_mkv.c`). `EbmlVarint` (sections 4 and 6 of RFC 8794),
  `EbmlElement` (the two-pass parser), `EbmlRoundTrip` (what is written is parsed), `BlockLacing` (section
  10.3 of RFC 9559), `RealAudio` and `CueSeek`.
* **Playlist** (`common/playlist.c`). `Playlist` links entry objects through their `prev` and `next`
  fields, and refines sequence operations.
* **Channels** (`audio/chmap.c`, `audio/chmap_sel.c`, `audio/aconverter.c`). `ChannelMap`,
  `ChannelSelect` and `PlaneReorder`.
* **Recorder** (`common/recorder.c`). `Recorder`.

Timestamps are reals; a missing one is the distinguished value NOPTS, below all others, as the
code's comparisons assume. Bytes are numbers below 256, and the 32- and 64-bit arithmetic that
can wrap is written out.

Some promises do not hold of the code in general. For these the project has the exact condition, or a witness:

* The index leads to another packet than a scan of the queue exactly when one of its entries is not
  later than all seek points before it (`IndexAgrees`, `IndexDisagrees`). Adding packets never
  produces such an index, whatever their timestamps (`EveryAppendRunIsSeekable`); pruning does
  (`MisledIndexIsReached`).
* The assertion that pruning finds a victim fails exactly if the oldest of several ranges has no
  packets (`VictimExists`), and a run leads there for every limit (`NoVictimIsReached`): a stream that ends
  while a prune is under way leaves a window in a queue that is emptied when its range is left.
* A refresh from behind the last queued packet loses one packet more than the gap (`RefreshIsExact`,
  `TakenFrom`).
* A reader that has run out of packets is not given the joined range's packets
  (`JoinedIsReadLast`).
* The end of the input is recorded while a seek is queued exactly if telling the queues of it joins
  ranges (`EndRecordedWhileQueued`, `EndsQueueSeek`, `AnEndIsOvertaken`); after that seek nothing is
  read until a reader asks again (`EndBlocksReading`).
* A seek while a refresh is under way loses the first packet after it if the cache is not seekable
  (`MissedSeekSkips`).
* While recording, a keyframe can be left behind other packets after a feed: exactly if the packet is
  refused and one was left before (`FedKeeps`). A queue that is full when recording starts is stuck with
  it until its stream ends (`AQueueIsOverrun`, `FullIsStuck`, `OverrunFromTheStart`), and one that fills up without a
  keyframe in it until a discontinuity (`EndMakesRoom`).
* The recorder means to wait for a timestamp before it starts, but takes a missing one for one
  (`TimestampsDoNotMatter`).
* An exact backward seek into a range's window lands past its target exactly if the first keyframe
  left in some stream's queue, and every indexed one, is past it (`ExactSeekLands`). That takes a round of
  pruning in this range of a queue whose next keyframe is not known yet (`ExactSeekIsComplete`): the whole
  queue is then due for pruning, and a keyframe completed later opens the window without being
  spared (`PrunedWindowMisleads`).
* An inexact seek sends the other streams to the timestamp of the video keyframe it found, and takes for granted
  that seeking back to that timestamp finds the keyframe again. It does exactly if no indexed keyframe behind it is
  that early (`FoundAgain`, `InexactSeekFollowsVideo`), and for every seek exactly if the index agrees with the queue
  (`RecordedFoundAgain`, `NotFoundAgain`).
* A joined range takes its end from the range taken over. It covers what the two covered exactly if that does not
  end first (`JoinCoversBoth`); with frames shown out of order it can (`JoinShortens`).
* Selecting a stream renews the seek windows before the stream counts as eager, so they still cover what the
  stream does not have (`SelectionLeavesWindow`); a backward seek into them leaves it with nothing to read exactly
  if it has no keyframe there (`ServedFinds`, `SelectedStreamIsLost`).
* The stream reader returns a number for a cut-off EBML id, not the invalid id (`ReadId`).
* A list of sub-elements is cut where its allocation is clamped, for which the input has to be
  large against the clamp (`ListsAreComplete`).
* A single EBML-laced frame is misread unless its explicit size is a multiple of 2^32
  (`SingleEbmlLace`).
* A laced block of several frames none of which has any content is taken for a broken one, with Xiph and with EBML
  lacing (`EmptyXiphIsRejected`, `EmptyEbmlIsRejected`); with fixed-size lacing it is read.
* RealAudio hands out frames that were never sent if the remainders of the rows add up to a frame
  (`NoStrayFrames`).
* A Matroska cluster at position 0, where no well-formed file has one, is taken for a missing one
  (`ExactSeekMissesNothing`).

## Model

| member | source | states |
|---|---|---|
| `DemuxCache.Demuxer.AddPacket` | demux/demux.c:1096-1194 | A delivered packet is refused (deselected stream, pending seek), skipped (overlap while refreshing) or appended: the tail grows by it, forward and total bytes by its size, a waiting reader is set to it, the range's window and joins follow, and unless the stream ignores it a recorded end is taken back; the consistency invariant is kept |
| `DemuxCache.Demuxer.AdjustSeekRangeOnPacket` | demux/demux.c:1055-1094 | After a packet or the end of a stream, the queue's keyframe range is closed or extended, the range window renewed and joining attempted, within the invariant; nothing happens without a seekable cache |
| `DemuxCache.Demuxer.AttemptRangeJoining` | demux/demux.c:894-1048 | The range with the least overlap is either joined, stream by stream, or discarded, and a failed join leaves the current range, the streams and the pending seek as they were |
| `DemuxCache.Demuxer.DequeuePacket` | demux/demux.c:1452-1516 | The reader gets exactly the first unread packet, its own remaining packets are the rest, no other stream's unread packets change, and the backbuffer is within its limit afterwards |
| `DemuxCache.Demuxer.PruneOnce` | demux/demux.c:1300-1364 | One round of pruning strictly lowers the total and moves nothing but heads of the oldest range; with a single range there always is a victim |
| `DemuxCache.Demuxer.PruneOldPackets` | demux/demux.c:1290-1366 | Ends with the backbuffer within its limit; the assertion that a victim exists can fail only with several ranges of which the oldest has run empty, never with one |
| `DemuxCache.Demuxer.TrySeekCache` | demux/demux.c:2227-2330 | A seek is refused exactly when it is by factor, the cache is not seekable or no range covers the target; otherwise the first covering range is used, every reader is sent to its target and every stream resumes there |
| `DemuxCache.Demuxer.SwitchCurrentRange` | demux/demux.c:2144-2185 | The range becomes the most recently used one and every stream appends to it; the range left behind loses what was due for pruning, or everything if it could not be resumed, and ranges without a window go |
| `DemuxCache.Demuxer.SwitchToFreshCacheRange` | demux/demux.c:2334-2350 | A new empty range becomes current (without a seekable cache the current one is emptied), with every reader unpositioned |
| `DemuxCache.Demuxer.Seek` | demux/demux.c:2352-2395 | Either the seek is served from the first range that covers it, or the demuxer starts over on an empty range with that seek queued; end-of-file and reading states are reset; a refused seek changes nothing at all |
| `DemuxCache.Demuxer.ExecuteSeek` | demux/demux.c:1387-1404 | The queued seek is handed on as it was queued and no longer pending, so packets are accepted again |
| `DemuxCache.Demuxer.SelectTrack` | demux/demux.c:2468-2488 | Selecting what is already selected changes nothing; otherwise the stream's reader is reset, a deselected stream loses its packets in every range, and selecting one while playing plans a refresh seek |
| `DemuxCache.Demuxer.UpdateStreamSelection` | demux/demux.c:555-600 | The changed stream loses its reader position, and if deselected its packets in every range; all range windows are renewed and then eagerness is recomputed for every stream, within the invariant |
| `DemuxCache.Demuxer.InitiateRefreshSeek` | demux/demux.c:2414-2463 | A refresh goes back to the earliest position of the selected audio and video streams; when other streams are selected it needs ordered dts or pos, goes back a second more, and marks as refreshing every selected stream that already had packets |
| `DemuxCache.Demuxer.Flush` | demux/demux.c:2130-2141 | No byte stays accounted for and no range but an emptied current one is left |
| `DemuxCache.Demuxer.ClearReaderState` | demux/demux.c:2120-2127 | No reader points to any packet and no forward bytes are counted |
| `DemuxCache.Demuxer.AddStream` | demux/demux.c:648-692 | The new stream gets an empty queue in every range, eagerness follows the new selection, and ranges without a window go; all packets of the others stay |
| `DemuxCache.Demuxer.PrepareRead` | demux/demux.c:1197-1252 | A packet is read exactly if a reading demuxer is below the byte limit and some stream has run out, is refreshing or is below the prefetch time; at the limit, streams without packets are told so if one has run out |
| `DemuxCache.Demuxer.FinishRead` | demux/demux.c:1267-1286 | An end of file seen by a read that a queued seek overtook is not recorded; otherwise every stream is ended in turn, and the end is recorded although a seek is queued if and only if ending some stream joined ranges |
| `DemuxCache.Demuxer.RequestMore` | demux/demux.c:1573-1581 | An eager reader that asks for more makes the demuxer read, and try again after an end |
| `DemuxCache.Demuxer.FreeEmptyCachedRanges` | demux/demux.c:513-538 | Exactly the ranges without a window go, then the shortest ones while there are too many; the current one stays |
| `DemuxCache.Demuxer.ClearQueue` | demux/demux.c:475-501 | One queue is blank and the total is lower by exactly its bytes |
| `DemuxCache.Demuxer.ClearCachedRange` | demux/demux.c:503-509 | All of a range's queues are blank and the total is lower by exactly their bytes |
| `DemuxCache.Demuxer.SetCurrentRange` | demux/demux.c:389-402 | The chosen range moves to the end of the use order; the order of the others is unchanged |
| `DemuxCache.Demuxer.UpdateSeekRanges` | demux/demux.c:405-450 | The range carries the window that its queues and the selected streams determine |
| `DemuxCache.ComputeWindow` | demux/demux.c:405-450 | The two loops compute the intersection of the eager streams' windows and the sparse streams' starts |
| `DemuxCache.DropOverlaps` | demux/demux.c:928-989 | The loop accepts exactly when every stream of the two ranges can be joined, and no byte of the next range goes missing |
| `DemuxCache.JoinStreams` | demux/demux.c:996-1034 | The joined and the emptied queues together hold all bytes of the two ranges; forward bytes are recounted |
| `DemuxCache.RecomputeBuffers` | demux/demux.c:377-386 | The counting loop yields the number and bytes of the packets from the reader on |
| `DemuxCache.AccountFor` | demux/demux.c:1055-1090 | A keyframe range is closed and a new one begun, or the open one extended, with window and index as specified; no packet moves |
| `DemuxCache.RemovePruned` | demux/demux.c:2152-2159 | What is due for pruning is removed from a queue left behind, and its bytes are given back |
| `DemuxCache.FindSeekRange` | demux/demux.c:2237-2250 | The first range whose window contains the target, or none if there is none |
| `DemuxCache.SeekStreams` | demux/demux.c:2284-2300 | The loop sends each reader to its target and returns the forward bytes as recomputed from there |
| `CachedRanges.WindowIsIntersection` | demux/demux.c:405-450 | If no eager stream blocks it, a timestamp is in the range's window if and only if it is in every eager stream's window and behind everything a sparse stream lost; an interval in all of them is never missed |
| `CachedRanges.AppendKeeps` | demux/demux.c:1135-1180 | Appending keeps all ranges and readers consistent, adds the packet's size to the total and, if the reader is positioned, to the forward bytes |
| `CachedRanges.AdjustedRangeOk` | demux/demux.c:1055-1090 | Closing a keyframe range keeps queues and readers consistent and the bytes unchanged |
| `CachedRanges.AfterAppendReader` | demux/demux.c:1140-1153 | The forward packets counted for a stream grow by the new packet unless it still waits for a keyframe |
| `CachedRanges.AfterReadReader` | demux/demux.c:1469-1500 | Reading takes the first unread packet, and the counts are right for the rest |
| `CachedRanges.StreamJoinedOk` | demux/demux.c:1000-1030 | A joined stream's queue is consistent and its reader's counts are right for the longer queue |
| `CachedRanges.SeekedReadersOk` | demux/demux.c:2284-2300 | After a seek in the cache every reader points into its queue with correct forward counts |
| `CachedRanges.MovedToEndOk` | demux/demux.c:389-402 | Making a range current keeps all ranges consistent and loses no byte |
| `CachedRanges.TrimIsSublist` | demux/demux.c:523-538 | Dropping surplus ranges keeps the order of the rest, ends at the limit and never drops the current one |
| `CachedRanges.TrimKeepsLongest` | demux/demux.c:523-538 | No dropped range has a longer window than a kept one |
| `CachedRanges.FreedBytes` | demux/demux.c:513-538 | Freeing ranges never raises the total |
| `CachedRanges.FreedOfBlank` | demux/demux.c:2130-2141 | After clearing everything only the current range is left, with no bytes |
| `CachedRanges.FreshIsEmpty` | demux/demux.c:2334-2350 | Every queue of a fresh range is empty and no reader was moved |
| `CachedRanges.EagernessReaders` | demux/demux.c:578-600 | Recomputing eagerness disturbs no reader and no forward count |
| `CachedRanges.EndsQueueSeek` | demux/demux.c:1269-1285 | Over the loop that ends all streams, a seek gets queued if and only if closing some stream's last keyframe range grows the current range into one that all streams can join |
| `PacketQueue.RemoveHeadOk` | demux/demux.c:453-473 | Removing the head keeps the index an in-order, spaced selection of seek points and all pointers inside the queue |
| `PacketQueue.DropStep` | demux/demux.c:453-473 | Dropping k+1 packets is dropping k and then removing the head, so the index after any number of removals is known |
| `PacketQueue.DropOk` | demux/demux.c:453-473 | Dropping any number of heads keeps the queue invariant |
| `PacketQueue.WithIndexEntryOk` | demux/demux.c:872-890 | Adding an entry keeps the index entries at least the current distance apart, also when the full index is halved and the distance doubled |
| `PacketQueue.ThinnedOk` | demux/demux.c:878-884 | Every second entry of a full index is spaced by twice the distance, up to any later packet that was spaced by the old one |
| `PacketQueue.AddIndexEntry` | demux/demux.c:872-890 | The compaction loop keeps every second entry and appends if the distance allows it |
| `PacketQueue.AppendedOk` | demux/demux.c:1130-1179 | A queue stays consistent when a packet is appended |
| `PacketQueue.CloseBlockOk` | demux/demux.c:1064-1076 | Once a keyframe range is closed, its keyframe is the last seek point of the queue |
| `PacketQueue.AdjustedOk` | demux/demux.c:1055-1086 | Accounting for a packet or for the end keeps the queue invariant |
| `PacketQueue.AddedOk` | demux/demux.c:1096-1180 | Adding a packet as a whole keeps the queue invariant |
| `PacketQueue.AddedHonest` | demux/demux.c:1055-1180 | While nothing is pruned, a queue's window starts at the timestamp of its first seek point |
| `PacketQueue.AdjustedHonest` | demux/demux.c:1055-1086 | The same when the stream ends |
| `QueueHistory.ClosedRangeIsBounded` | demux/demux.c:1055-1090 | Whatever a queue went through and in whatever order timestamps come: when a keyframe's range is closed, its seek timestamp is the least timestamp of the range and stays so whatever is added later, the window ends at the greatest one, and a range without timestamps leaves both alone |
| `QueueHistory.DropFills` | demux/demux.c:453-473 | Dropping heads leaves the range being filled, with its bounds, alone, or forgets it along with its keyframe |
| `QueueHistory.JoinedFills` | demux/demux.c:1000-1030 | A joined queue goes on filling the second one's range |
| `QueueHistory.OrderIsKnown` | demux/demux.c:1130-1135 | Over every run, dts counts as correct exactly if all packets had one and they increased strictly, pos likewise, and the last packet's are remembered |
| `QueueHistory.NewestTimestamp` | demux/demux.c:1170-1180 | The newest timestamp is that of a packet, never before the last one's, and at most ten seconds after it |
| `PacketQueue.DropKeepsIndex` | demux/demux.c:453-473 | Dropping heads takes exactly the index entries whose packets go |
| `PacketQueue.BytesConcat` | demux/demux.c:365-374 | The bytes of two runs of packets add up |
| `SeekIndex.FindSeekTarget` | demux/demux.c:2187-2224 | The loop that starts at the indexed packet finds the specified target |
| `SeekIndex.IndexAgrees` | demux/demux.c:2187-2224 | If every index entry is later than all seek points before it, the target is the one a scan from the queue head finds, for every timestamp in both directions |
| `SeekIndex.IndexDisagrees` | demux/demux.c:2187-2224 | If some entry is not, there is a timestamp for which the index leads to a different packet than a scan from the head |
| `SeekIndex.StrictIsRecorded` | demux/demux.c:872-890 | Strictly increasing seek timestamps are enough for the index to agree |
| `SeekIndex.ForwardTarget` | demux/demux.c:2198-2219 | A forward seek lands on the first keyframe at or after the timestamp, or on none if there is none |
| `SeekIndex.BackwardTarget` | demux/demux.c:2198-2219 | Other seeks land on the last keyframe at or before the timestamp, or else on the first one |
| `SeekIndex.HonestWindowIsSeekable` | demux/demux.c:2187-2224 | In a queue whose window starts at its first seek point, a backward seek into the window lands on a keyframe at or before the target |
| `SeekIndex.BackwardLandsExactly` | demux/demux.c:2187-2224 | In any queue a backward seek lands at or before its target if and only if the first keyframe, or an indexed one, is there |
| `SeekIndex.BackwardFindsSome` | demux/demux.c:2187-2224 | And it finds nothing if and only if no packet is a keyframe with a seek timestamp |
| `SeekIndex.TargetIs` | demux/demux.c:2187-2224 | A target is the first keyframe at or after the timestamp, or the last one up to it, among those from the last usable index entry on |
| `SeekIndex.FoundAgain` | demux/demux.c:2187-2282 | Seeking back to the timestamp of the keyframe that a seek found lands at or before it, and on the same packet if and only if no indexed keyframe behind it is that early; after a backward seek that landed in time it always does |
| `SeekIndex.RecordedFoundAgain` | demux/demux.c:2187-2282 | If the index agrees with the queue, every seek's keyframe is found again |
| `SeekIndex.NotFoundAgain` | demux/demux.c:2187-2282 | In any other queue some forward seek finds one that is not |
| `SeekIndex.WithIndexEntryCovers` | demux/demux.c:872-890 | An index whose entries are records and which no seek point outruns by its distance stays so when a new keyframe is offered |
| `SeekIndex.RunTidy` | demux/demux.c:1055-1180 | Any sequence of packets and ends of stream keeps the index representative and the window honest |
| `SeekIndex.EveryAppendRunIsSeekable` | demux/demux.c:872-2224 | In every queue that packets were added to in any order and with any timestamps, seeking by the index equals seeking from the head, and backward seeks into the window land at or before the target |
| `RangeJoin.DropOverlap` | demux/demux.c:928-989 | The loop drops the head of the next queue up to the join point, or all it passed, and counts the dropped bytes |
| `RangeJoin.OverlapOfWindows` | demux/demux.c:928-989 | For windows of one strictly ordered source, the join point is found if and only if the last packet of the first window lies in the closed part of the second, and then all before it is dropped |
| `RangeJoin.OverlapIs` | demux/demux.c:928-989 | For any two queues: the search ends at the first packet that is not clearly before the one looked for or is the keyframe being filled; that is the join point exactly if dts, pos, pts and size agree, and the search gives up if only its number does |
| `RangeJoin.FoundIsExact` | demux/demux.c:939-982 | If dts or pos increases, a join point is the very packet looked for, by whatever order it was searched |
| `RangeJoin.JoinIsWindowUnion` | demux/demux.c:928-1034 | Joining two windows of one strictly ordered source succeeds exactly then, and gives the one contiguous window spanning both: no duplicate, gap or reordering |
| `RangeJoin.SparseJoinIsOrdered` | demux/demux.c:928-989 | A sparse stream without a join point keeps both windows in order, or the first one if it holds all of the second |
| `RangeJoin.JoinedOk` | demux/demux.c:1000-1030 | The joined queue satisfies the whole queue invariant, its index re-added entry by entry |
| `RangeJoin.JoinQueues` | demux/demux.c:1000-1030 | The loop that re-adds the index entries yields the specified joined queue |
| `RangeJoin.JoinedIndex` | demux/demux.c:1018-1026 | The joined index has entries of the two only, and no entry of the second is further behind the last than its distance |
| `RangeJoin.JoinedHonest` | demux/demux.c:1000-1030 | The joined window still starts at the joined queue's first seek point |
| `CacheGuarantees.TakenIsReadLast` | demux/demux.c:1135-1180 | An added packet is read after all that was unread before, or skipped before the first keyframe |
| `CacheGuarantees.JoinedIsReadLast` | demux/demux.c:1000-1030 | A positioned reader goes on to the second range's packets; one without a position is not given one, so it reads nothing |
| `CacheGuarantees.JoinUnites` | demux/demux.c:894-1048 | For an eager stream whose ranges hold windows of one source, the current range after a join attempt either is unchanged or holds the window spanning both |
| `CacheGuarantees.JoinCoversBoth` | demux/demux.c:894-1048 | After a join of ranges with up-to-date windows the window goes from the current range's start to the other's end, and the demuxer resumes a second before that with every selected stream skipping what it has; the window covers exactly what the two covered if and only if the other one did not end first |
| `CacheGuarantees.CandidateIs` | demux/demux.c:894-916 | Joining is tried with the overlapping range that begins last, and not at all exactly if none overlaps |
| `CacheGuarantees.NothingTakenMeanwhile` | demux/demux.c:1096-1133 | A packet that comes while a seek is queued or to a deselected stream changes nothing, and one that comes to a refreshing stream nothing but whether it still is |
| `CacheGuarantees.ReadsExactly` | demux/demux.c:1197-1252 | The demuxer is asked to read if and only if it is reading, below the limit and some stream lacks packets; at the limit the streams without packets are told so exactly if an eager one is among them |
| `CacheGuarantees.EagernessIs` | demux/demux.c:578-600 | Something is read eagerly exactly if more than still pictures is selected, and never subtitles along with anything else |
| `CacheGuarantees.DeselectedLosesAll` | demux/demux.c:555-600 | A deselected stream has no packet in any range left, every other stream has all of its own, and the changed stream's reader has none to read |
| `CacheGuarantees.RefreshGoesBack` | demux/demux.c:2414-2463 | A refresh goes back to the earliest place where a selected audio or video stream is read, a second further if others are selected, and makes exactly those skip that had packets; it is not done exactly if the input is not seekable, nothing is being read, or some of several selected streams has no order |
| `CacheGuarantees.SeekElsewhereResumes` | demux/demux.c:2303-2330 | A seek into another range makes every selected stream resume a second before the end of its window; one within the current range leaves the demuxer where it is |
| `CacheGuarantees.DeliveryTakes` | demux/demux.c:1108-1180 | Packets delivered to a stream of the cache one by one, without a seek being queued: its queue grows by exactly what the specification of refreshing says it takes |
| `RefreshSeek.RefreshIsExact` | demux/demux.c:1108-1133 | If the source is re-delivered from packet k, the stream takes exactly what follows its last packet e if and only if k <= e |
| `RefreshSeek.TakenFrom` | demux/demux.c:1108-1133 | And in general: re-delivery beyond the old end loses the packets between and one more |
| `RefreshSeek.UnorderedSkipsOne` | demux/demux.c:1108-1121 | A stream without an order skips one packet, whichever that is |
| `RefreshSeek.RefreshContinues` | demux/demux.c:1108-1180 | A queue holding a window of the source is continued to the source's end without duplicate or gap |
| `RefreshSeek.JoinThenRefresh` | demux/demux.c:989-1044 | Joining two windows and then resuming behind the second yields everything from the first window's start on |
| `RefreshSeek.AddedAllMedias` | demux/demux.c:1096-1180 | Packets added one after the other stand in the queue in that order behind what it had |
| `Pruning.FindVictim` | demux/demux.c:1300-1330 | The victim is the first queue whose head is no seek target, or one whose head is the oldest; -1 only if no queue of the oldest range can be pruned |
| `Pruning.VictimExists` | demux/demux.c:1290-1336 | While there are bytes behind the readers, a victim exists if and only if it is not so that the oldest of several ranges has run empty |
| `Pruning.PruneQueue` | demux/demux.c:1338-1362 | At least one packet and no forward packet is removed, and the bytes are given back exactly |
| `Pruning.PruneStopsAtReader` | demux/demux.c:1347-1362 | The removal loop never passes the reader's packet |
| `Pruning.PruneRemovesSome` | demux/demux.c:1347-1362 | And removes something from every queue that may be pruned |
| `Pruning.PreparePrune` | demux/demux.c:1335-1352 | The next prune target is the packet before the next keyframe with a seek timestamp, where the window then starts, or the tail if there is none |
| `Pruning.PrunedIsRemembered` | demux/demux.c:1335-1352 | A round takes no seek target but those at the timestamp remembered as pruned, and the window goes on from the next keyframe if there is one |
| `Pruning.NothingDueStays` | demux/demux.c:2152-2159 | A queue left behind holds exactly what was not due for pruning |
| `Pruning.LeftBehindBegins` | demux/demux.c:2152-2159 | And begins with the keyframe its window begins with, if that was known |
| `Pruning.WindowlessGoes` | demux/demux.c:1361-1363 | If pruning takes a range's window, the range goes unless it is the current one |
| `Pruning.RemoveRun` | demux/demux.c:1347-1362 | The loop drops exactly up to the target or the reader, and counts the bytes |
| `Pruning.PruneKeeps` | demux/demux.c:1290-1366 | One round of pruning keeps all ranges and readers consistent and the accounting exact |
| `Pruning.PruneKeepsForward` | demux/demux.c:1290-1366 | Every reader still reads the same packets after pruning |
| `Pruning.ForwardLeTotal` | demux/demux.c:299-375 | The forward bytes are at most the total |
| `Pruning.PruneThenEndDrains` | demux/demux.c:1055-1362 | If a prune is under way when the stream ends, a queue that is emptied when its range is left keeps a window: the general condition |
| `CacheCounterexamples.NoVictimIsReached` | demux/demux.c:1290-1324 | For every limit, a run of packets, reads, one round of pruning, the end of the input and a seek after which more than allowed is behind the reader, the oldest range has run empty, and no round of pruning is possible |
| `CacheCounterexamples.MisledIndexIsReached` | demux/demux.c:2187-2224 | A run with one round of pruning after which some forward seek by the index lands on another packet than a scan from the head: appending alone never leads there |
| `CacheCounterexamples.PrunedWindowMisleads` | demux/demux.c:1335-1345 | For every limit, a run with one blind round of pruning, after which an exact seek to 11 into the window from 10 to 20 lands on the keyframe at 20 |
| `CacheCounterexamples.JoinShortens` | demux/demux.c:1013-1044 | Two ranges of one video stream with a frame shown at 25 before the keyframe shown at 20: a join after which 23 is no longer in any window |
| `CacheCounterexamples.SelectedStreamIsLost` | demux/demux.c:555-600 | A run in which an audio stream is added and selected, and a seek served from the cache leaves it with nothing to read although it counts as read eagerly |
| `SeekCompleteness.ExactSeekIsComplete` | demux/demux.c:2227-2330 | Over every run with a fixed selection, an exact backward seek into a range sends each selected eager stream to a keyframe at or before the target, if that range was never pruned blindly: other ranges may be pruned at will, and this one whenever the next keyframe of the victim is known (or the victim does not bound the window) |
| `SeekCompleteness.ExactSeekLands` | demux/demux.c:2187-2303 | After any history: an exact backward seek served by a range sends a stream to a keyframe at or before the target if and only if the first keyframe its queue still has, or an indexed one, is there |
| `SeekCompleteness.ServedFinds` | demux/demux.c:2277-2303 | A backward seek served by a range leaves a stream with nothing to read if and only if the stream has no keyframe there |
| `SeekCompleteness.InexactSeekFollowsVideo` | demux/demux.c:2255-2303 | After any history: if the first selected video stream has a target, an inexact seek sends every stream to a keyframe at or before the target's timestamp if and only if it has one there (the last such if keyframes strictly increase), and the video to its target if and only if no indexed keyframe misleads; if it has none, every stream goes to its own target |
| `SeekCompleteness.InexactSeekIsComplete` | demux/demux.c:2227-2330 | Over every run as for exact seeks: an inexact backward seek sends the video to a keyframe at or before the timestamp sought and every other stream by that keyframe |
| `KnownOrder.EveryRunKnowsOrder` | demux/demux.c:1130-2185 | Over every run of the cache, a stream that still counts as ordered by dts or pos was so in the queue of every range |
| `SeekCompleteness.RunStaysWhole` | demux/demux.c:405-2350 | Every cache reached by such a run has sound queues in all ranges, and in that range an up-to-date window that is honest about its queues |
| `SeekCompleteness.PruneWhole` | demux/demux.c:1290-1364 | One round of pruning keeps this: blind or not in other ranges, not blind in that one |
| `SeekCompleteness.WholeWindowIsSeekable` | demux/demux.c:2187-2252 | In such a range, a timestamp in the window has a seek target at or before it in every restricting stream |
| `SeekCompleteness.AddWhole` | demux/demux.c:1096-1194 | Adding a packet keeps windows up to date and honest, including its joins |
| `SeekCompleteness.JoinWhole` | demux/demux.c:894-1048 | A join attempt does |
| `SeekCompleteness.SeekWhole` | demux/demux.c:2144-2330 | A seek served from the cache does |
| `SeekCompleteness.FreshWhole` | demux/demux.c:2334-2350 | Starting over on a fresh range does |
| `SeekCompleteness.SelectionLeavesWindow` | demux/demux.c:555-600 | Selecting another stream leaves windows as they are although the new stream has no packets: they are renewed before eagerness is |
| `DemuxProtocol.NothingStale` | demux/demux.c:1108-2463 | Over every interleaving of reader and demuxer steps, for every source and wherever low-level seeks land: each accepted packet stems from the seek queued last, each recorded end from the seek that was the last one queued when the lock was retaken |
| `DemuxProtocol.StepStaysUpToDate` | demux/demux.c:1108-2463 | Every atomic step keeps this: seeks in and out of the cache, retries, selections, flushes, joins, pruning, and the thread's own steps |
| `DemuxProtocol.NothingLost` | demux/demux.c:1108-2463 | Over every interleaving with trusted seeks, for a source told apart by dts or, without any, by pos: the queue of every range is a contiguous window of the source, and once seeks are settled the next delivery continues the current one |
| `DemuxProtocol.EverythingArrives` | demux/demux.c:1096-1288 | And from every such state in which the demuxer reads, some run of reads and deliveries alone completes the window to the source's end |
| `DemuxProtocol.StepKeeps` | demux/demux.c:1108-2463 | Every atomic step keeps the windows and the demuxer in step with them |
| `DemuxProtocol.RunKeeps` | demux/demux.c:1407-1435 | So does every run of steps |
| `DemuxProtocol.JoinedHolds` | demux/demux.c:928-1034 | Joining the queues of two ranges of one source at a join point gives the piece that spans both, ready to be continued, for streams ordered by dts or by pos |
| `DemuxProtocol.EndRecordedWhileQueued` | demux/demux.c:1267-1286 | An end is recorded although a seek is queued if and only if telling the queues of it joined ranges |
| `DemuxProtocol.EndBlocksReading` | demux/demux.c:1407-1425 | A recorded end stays, and nothing is read, until a reader asks again or the user seeks; executing the queued seek does not change that |
| `DemuxProtocol.MissedSeekSkips` | demux/demux.c:2334-2350 | After a seek that no range covers, the first packet delivered is skipped if and only if the cache is not seekable and the stream was refreshing |
| `OvertakenEnd.AnEndIsOvertaken` | demux/demux.c:1267-1286 | A run in which an end is recorded while a newer seek is queued: cache everything, seek back to the start, read to the end again |
| `EbmlVarint.ParseLength` | demux/ebml.c:256-288 | The buffer reader returns the value and width of a length if the buffer starts with a known one, else the invalid value |
| `EbmlVarint.ReadLength` | demux/ebml.c:79-101 | The stream reader agrees with it on every complete known length, and stops where the source stops on the others |
| `EbmlVarint.DecodeEncoded` | demux/ebml.c:79-101 | Decoding inverts the encoding of section 4 of RFC 8794 at every width 1 to 8; all ones is unknown |
| `EbmlVarint.DecodedIsEncoding` | demux/ebml.c:256-288 | And everything decoded is the encoding of what it was decoded to |
| `EbmlVarint.RejectedIsNoEncoding` | demux/ebml.c:256-288 | What is rejected starts with no encoding |
| `EbmlVarint.ReadSignedLength` | demux/ebml.c:107-120 | Returns the value less the bias of its width, or the invalid value |
| `EbmlVarint.SignedRoundTrip` | demux/ebml.c:107-120 | Inverts the biased signed form for every number it has, at every width |
| `EbmlVarint.ParseSint` | demux/ebml.c:299-310 | The sign-extending shifts compute the two's complement value |
| `EbmlVarint.ReadInt` | demux/ebml.c:142-163 | The stream reader computes the same value for every complete integer |
| `EbmlVarint.TwosComplementRange` | demux/ebml.c:299-310 | Which is the number of the signed range congruent to the octets |
| `EbmlVarint.ParseUint` | demux/ebml.c:290-297 | The shifts compute the big-endian value |
| `EbmlVarint.ParseId` | demux/ebml.c:237-254 | An id keeps its marker bit; a cut-off one has a length beyond the buffer |
| `EbmlVarint.ReadId` | demux/ebml.c:62-74 | The stream reader agrees on complete ids; a cut-off one comes out as a number that is not the invalid id |
| `EbmlElement.ParseElement` | demux/ebml.c:324-589 | Both passes together yield the element the bytes and the schema determine, recursively, for every input |
| `EbmlElement.SameChildren` | demux/ebml.c:335-448 | Read up to where the count pass stopped, the input has the same children: the fill pass visits exactly the headers that were counted |
| `EbmlElement.CountFields` | demux/ebml.c:335-389 | The count pass counts the specified children of each field and stops where they end |
| `EbmlElement.RoomForNext` | demux/ebml.c:391-486 | A field's count stays below what was counted, and the "too many" branch is taken only where the allocation was clamped |
| `EbmlElement.Allocate` | demux/ebml.c:391-432 | The allocated numbers are the counted ones, or the clamp |
| `EbmlElement.FillFields` | demux/ebml.c:434-588 | The fill pass stores for each field its well-formed children in order, cutting off one that goes past the end |
| `EbmlElement.ParseValue` | demux/ebml.c:499-584 | A content is accepted and valued as its type demands, sub-elements recursively |
| `EbmlElement.IdFills` | demux/ebml.c:572-579 | An id content is judged the same when read to the end of its parent |
| `EbmlElement.CollectedIsPrefix` | demux/ebml.c:434-588 | What is stored for a field is a prefix of all its well-formed children, cut where its room ends |
| `EbmlElement.ListsAreComplete` | demux/ebml.c:391-510 | A list of sub-elements holds every counted one if and only if their number is within the clamp, as it is for every small enough target structure |
| `EbmlElement.CountsAreSmall` | demux/ebml.c:335-389 | The counters do not overflow |
| `EbmlElement.ReadHead` | demux/ebml.c:340-376 | One header is accepted as specified and its content lies inside the parent's window |
| `EbmlRoundTrip.IdReadsBack` | demux/ebml.c:237-254 | An id written in any of its widths is read back, marker included |
| `EbmlRoundTrip.ReadIdWasWritten` | demux/ebml.c:237-254 | And every id read is the written form of it |
| `EbmlRoundTrip.ChildrenReadBack` | demux/ebml.c:335-389 | Elements written one after the other, in any widths, are found as children again, in order and up to the end |
| `EbmlRoundTrip.ElementReadsBack` | demux/ebml.c:335-589 | Every list then has the values written for it, in order, up to the clamp, and every other field the first one written; unknown elements are skipped |
| `EbmlRoundTrip.CutOffReads` | demux/ebml.c:340-376 | An element that the input cuts off is taken as far as it goes if it is a structure or unknown, and ends its parent otherwise |
| `EbmlRoundTrip.UIntReadsBack` | demux/ebml.c:290-297 | An unsigned number is read back from any number of octets that holds it |
| `EbmlRoundTrip.SIntReadsBack` | demux/ebml.c:299-310 | A signed one from its two's complement in any width |
| `EbmlRoundTrip.StrReadsBack` | demux/ebml.c:549-559 | A string with or without padding |
| `EbmlRoundTrip.IdValueReadsBack` | demux/ebml.c:572-579 | An id that is a content |
| `EbmlRoundTrip.FloatReadsBack` | demux/ebml.c:538-547 | The bits of a float in its widths |
| `BlockLacing.ReadBlockLacing` | demux/demux_mkv.c:2087-2176 | The reader, with its 32-bit size arithmetic, yields the specified laces |
| `BlockLacing.LacingIsPartition` | demux/demux_mkv.c:2087-2176 | Whenever lacing succeeds, the block is a header whose octets say how many laces there are and how long, in the terms of each lacing, and then the laces, byte for byte up to the block's end; without lacing there is no header |
| `BlockLacing.CutIsPartition` | demux/demux_mkv.c:2152-2172 | Cutting succeeds only when the sizes add up to the payload |
| `BlockLacing.UnlacedRoundTrip` | demux/demux_mkv.c:2094-2096 | A block without lacing is its one frame, first octet to last, wherever it stands, if and only if that is no longer than a frame may be |
| `BlockLacing.FixedRoundTrip` | demux/demux_mkv.c:2122-2172 | Up to 256 frames of one size written with fixed-size lacing are read back unchanged |
| `BlockLacing.XiphRoundTrip` | demux/demux_mkv.c:2104-2172 | Two to 256 frames written with Xiph lacing are read back unchanged, wherever the block stands |
| `BlockLacing.EbmlRoundTrip` | demux/demux_mkv.c:2129-2172 | The same for EBML lacing with sizes in any widths |
| `BlockLacing.EveryBlockIsEbmlLaceable` | demux/demux_mkv.c:2129-2156 | Every such list of frames has an EBML lacing |
| `BlockLacing.EmptyXiphIsRejected` | demux/demux_mkv.c:2104-2116 | A Xiph-laced block of several frames without any content is rejected |
| `BlockLacing.EmptyEbmlIsRejected` | demux/demux_mkv.c:2129-2141 | So is an EBML-laced one, in whatever widths |
| `BlockLacing.SingleEbmlLace` | demux/demux_mkv.c:2129-2143 | A single EBML lace is accepted exactly when its explicit size is a multiple of 2^32: that size is subtracted from the payload, and what is left has to be all of it |
| `BlockLacing.FixedSucceeds` | demux/demux_mkv.c:2122-2172 | Fixed-size lacing succeeds exactly when the payload divides evenly into frames that are small enough |
| `BlockLacing.ReadXiphSizes` | demux/demux_mkv.c:2104-2116 | The size loop reads the 255-terminated sizes, modulo 2^32 |
| `BlockLacing.ReadEbmlSizes` | demux/demux_mkv.c:2134-2141 | The size loop adds the signed differences, modulo 2^32 |
| `RealAudio.Track.Feed` | demux/demux_mkv.c:2179-2278 | A packet is scattered and timestamped; the buffer is handed out with the h-th one; one that does not fit changes no counter |
| `RealAudio.Track.Scatter` | demux/demux_mkv.c:2197-2217 | Piece by piece, up to the first that does not fit |
| `RealAudio.Track.Release` | demux/demux_mkv.c:2260-2272 | All frames of the buffer in order, each with its position, the timestamp of the packet that started there if any, and the first marked as keyframe |
| `RealAudio.SlotsAreTakenOnce` | demux/demux_mkv.c:2197-2217 | The map from packet and piece to slot is a bijection, for every layout of both codecs |
| `RealAudio.DestIsSlot` | demux/demux_mkv.c:2197-2217 | A piece's place in the buffer is its slot's, for ra_288 when its pieces tile the buffer |
| `RealAudio.StoredSlot` | demux/demux_mkv.c:2197-2217 | Storing pieces of one packet changes their slots and no others |
| `RealAudio.FilledSlot` | demux/demux_mkv.c:2197-2252 | After any number of packets each slot holds its piece, or what it held before |
| `RealAudio.FramesAreThePieces` | demux/demux_mkv.c:2249-2272 | The frame handed out for each slot is the piece that was sent for it, in full |
| `RealAudio.FrameOrder` | demux/demux_mkv.c:2197-2272 | Which frame is which: each row has one piece of every packet, for ra_288 in the order they came, for cook the even packets' before the odd ones' |
| `RealAudio.FramesCarryTimes` | demux/demux_mkv.c:2179-2272 | A frame has a timestamp if and only if it starts where a packet does, and then that packet's, or zero if it repeats the one before |
| `RealAudio.NoStrayFrames` | demux/demux_mkv.c:2253-2272 | No other frames are handed out if and only if the rows' remainders do not add up to one |
| `CueSeek.CueIndex.AddBlockPosition` | demux/demux_mkv.c:826-845 | A block is added exactly if it is newer than all of its track's entries and the index is not complete |
| `CueSeek.LastIsNewest` | demux/demux_mkv.c:826-845 | The remembered last entry decides that as a scan of all entries would |
| `CueSeek.FindIndexEntry` | demux/demux_mkv.c:2911-2937 | The search returns a best entry of the track under the source's comparison, or -1 if the track has none |
| `CueSeek.BackwardIsOptimal` | demux/demux_mkv.c:2917-2935 | Which is the greatest timecode at or before the target, or else the smallest after it |
| `CueSeek.ForwardIsOptimal` | demux/demux_mkv.c:2917-2935 | And forward the smallest at or after, or else the greatest before |
| `CueSeek.FindPrevious` | demux/demux_mkv.c:2946-2956 | The position of the entry with the latest timecode not after the preroll's start, the last one of several, or 0 |
| `CueSeek.FindEarliest` | demux/demux_mkv.c:2961-2972 | The lowest position among the entries from there on that are still shown at the keyframe, or the keyframe's own |
| `CueSeek.SeekWithCues` | demux/demux_mkv.c:2911-2982 | The position read from, in all combinations of flags and durations |
| `CueSeek.PrerollReaches` | demux/demux_mkv.c:2939-2945 | An exact seek goes back exactly as many seconds as the preroll says |
| `CueSeek.PrevIsLatest` | demux/demux_mkv.c:2946-2956 | The preroll begins in the cluster of a latest entry that is not after its start, or nowhere if there is none |
| `CueSeek.ExactSeekMissesNothing` | demux/demux_mkv.c:2957-2976 | It is never behind the keyframe's cluster, and no block shown at the keyframe and not before the preroll is skipped if and only if none of them is at position 0, or the keyframe itself is; with positive positions nothing is missed; and it reads from no earlier cluster than that takes |
| `Playlist.Playlist.Insert` | common/playlist.c:55-78 | The linked list stays well-formed and holds the entry at its place; cursor and flag stay |
| `Playlist.Playlist.Add` | common/playlist.c:80-83 | The same at the end |
| `Playlist.Playlist.Unlink` | common/playlist.c:85-107 | The entry is gone; a cursor on it moves to its successor and the flag says so |
| `Playlist.Playlist.Remove` | common/playlist.c:116-121 | And is marked as removed, with one reference less |
| `Playlist.Playlist.Clear` | common/playlist.c:123-129 | No entry and no cursor is left, and all entries are marked |
| `Playlist.Playlist.Move` | common/playlist.c:132-146 | The entry is directly before its target, and cursor and flag are as before |
| `Playlist.MovedIs` | common/playlist.c:132-146 | Moving changes nothing else about the order |
| `Playlist.Playlist.TransferEntries` | common/playlist.c:219-235 | All entries arrive in order behind the cursor's entry, or one further if the cursor's was replaced, or at the end without a cursor; and the source is empty |
| `Playlist.Playlist.AppendEntries` | common/playlist.c:237-244 | All entries arrive in order at the end, and the source is empty |
| `Playlist.Playlist.Shuffle` | common/playlist.c:161-181 | The list is the one that the swaps make of it; the cursor stays on its entry |
| `Playlist.ShuffleArray` | common/playlist.c:161-181 | The swapping loop, in place |
| `Playlist.ShuffledIsPermutation` | common/playlist.c:161-181 | A shuffle loses and duplicates nothing |
| `Playlist.EveryOrderIsPossible` | common/playlist.c:161-181 | And every order can come out of it |
| `Playlist.Playlist.EntryToIndex` | common/playlist.c:248-259 | The position of a listed entry, -1 for any other |
| `Playlist.Playlist.EntryFromIndex` | common/playlist.c:268-276 | The entry at a position, or none: the inverse |
| `Playlist.Playlist.EntryCount` | common/playlist.c:261-264 | The length of the list |
| `Playlist.Playlist.GetNext` | common/playlist.c:183-192 | The cursor's neighbour, where the successor of a removed entry still counts as next |
| `ChannelMap.IsValid` | audio/chmap.c:115-126 | The loops decide validity: no speaker twice, NA excepted |
| `ChannelMap.IsUnknown` | audio/chmap.c:135-142 | Whether no channel names a speaker |
| `ChannelMap.RemoveNa` | audio/chmap.c:185-194 | The in-place loop keeps the other channels in order |
| `ChannelMap.WithoutNaIsDistinct` | audio/chmap.c:185-194 | A valid map without its silent channels has each speaker once |
| `ChannelMap.ToMask` | audio/chmap.c:238-254 | The loop sets the bits of all mapped speakers below 64 |
| `ChannelMap.FromMask` | audio/chmap.c:268-281 | The loop lists the set bits in order, unless they are too many |
| `ChannelMap.MaskRoundTrip` | audio/chmap.c:238-281 | Mask to map to mask is the identity for 1 to 16 bits |
| `ChannelMap.MapRoundTrip` | audio/chmap.c:283-301 | And map to mask to map for maps in mask order |
| `ChannelMap.MaskIs` | audio/chmap.c:238-254 | A speaker's bit is set exactly if the map has it; a map of which only the size is known has that many bits |
| `ChannelMap.TooManyBits` | audio/chmap.c:268-281 | A mask has no map exactly if it has more bits than there may be channels |
| `ChannelMap.SortedIs` | audio/chmap.c:178-182 | Normalising sorts and loses nothing |
| `ChannelMap.EqualReorderedIs` | audio/chmap.c:157-163 | Comparing normalised maps is comparing the speakers as multisets |
| `ChannelMap.GetReorder` | audio/chmap.c:321-344 | Each target channel gets the source channel of its speaker or -1, and the rest of the array -1 |
| `ChannelMap.ReorderIs` | audio/chmap.c:321-344 | Between maps that name speakers, the first source channel of the target's speaker, or -1 exactly if there is none; otherwise channels keep their numbers |
| `ChannelMap.FindSpeaker` | audio/chmap.c:329-342 | The first channel of a speaker |
| `ChannelSelect.IsBetter` | audio/chmap_sel.c:248-305 | The pairwise decisions are exactly comparison by one lexicographic rank |
| `ChannelSelect.LessIsOrder` | audio/chmap_sel.c:248-305 | Which is a strict weak order |
| `ChannelSelect.Fallback` | audio/chmap_sel.c:308-328 | The fold returns the first of the highest-ranked known maps, the request itself if it is among them, and fails only if all are unknown |
| `ChannelSelect.ExactWins` | audio/chmap_sel.c:248-328 | Nothing is ranked above the request itself |
| `ChannelSelect.LosingLessIsBetter` | audio/chmap_sel.c:248-305 | A preferred remix comes first; otherwise a map that loses fewer speakers even after replacing is ranked above, and the ties are broken as the source does |
| `ChannelSelect.TestPreferredRemix` | audio/chmap_sel.c:71-83 | The table loop decides whether the remix is a preferred one |
| `ChannelSelect.PreferredRemixIs` | audio/chmap_sel.c:62-83 | Which means from the center alone to left and right alone, silent channels aside |
| `ChannelSelect.ReplaceSpeakers` | audio/chmap_sel.c:35-60 | The first direction in which something is replaced and the result is valid applies; otherwise nothing does |
| `ChannelSelect.ReplacedIsMap` | audio/chmap_sel.c:26-60 | Replacing makes valid maps of valid maps of the same size, and only where one of the two pairs is |
| `ChannelSelect.ComputeDiffReplaced` | audio/chmap_sel.c:218-243 | The number of speakers lost even after replacing |
| `ChannelSelect.StandInsLoseNothing` | audio/chmap_sel.c:26-60 | Back and direct speakers stand in for side ones, and side ones for them, without loss |
| `ChannelSelect.ReplacingNeverLosesMore` | audio/chmap_sel.c:218-243 | Replacing never loses more than the maps differ by, and less only for stereo on mono or where a replaced map does |
| `PlaneReorder.ReorderPlanes` | audio/aconverter.c:399-432 | In place, each channel gets the plane the order names, or the next spare one, silenced |
| `PlaneReorder.ReorderOutput` | audio/aconverter.c:262-475 | With the order derived from the two maps when the converter is configured, each speaker's channel holds the plane that the speaker had, untouched, every other one a silenced plane, and the planes' buffers are a permutation of the old ones |
| `PlaneReorder.PlanesFollowSpeakers` | audio/aconverter.c:399-432 | What the order means for the planes: the same, of any array whose planes are where the order puts them |
| `PlaneReorder.EveryPlaneOnce` | audio/aconverter.c:262-432 | For a target map that adds silent channels to the source's speakers, every speaker gets its own plane, silent ones get spare planes, and none is used twice |
| `PlaneReorder.EveryPlaneUsed` | audio/aconverter.c:262-432 | And every plane is used |
| `PlaneReorder.CountsAgree` | audio/aconverter.c:262-275 | Spare planes begin exactly where the source's end |
| `PlaneReorder.TransposeOrder` | audio/aconverter.c:165-175 | The transposed array says where each number was, and is zero beyond |
| `PlaneReorder.TransposedIsInverse` | audio/aconverter.c:165-175 | On equal speaker sets it is the inverse permutation |
| `PlaneReorder.TransposedTwice` | audio/aconverter.c:165-175 | On both sides |
| `Recorder.Recorder.FeedPacket` | common/recorder.c:345-384 | A packet before the first keyframe after a discontinuity, or for a full queue, is not taken; any other is queued, may start muxing, and what lies before the last keyframe is muxed |
| `Recorder.Recorder.FeedEof` | common/recorder.c:345-355 | A null packet marks the stream as ended, which may start muxing, and what lies before the last keyframe is muxed |
| `Recorder.Recorder.MuxPackets` | common/recorder.c:225-248 | Packets before the last keyframe, or all, go out in order |
| `Recorder.Recorder.CheckRestart` | common/recorder.c:252-291 | Muxing starts exactly when every stream has enough packets, has ended or is a subtitle, and the minimum over the first packets of those with enough is finite |
| `Recorder.TimestampsDoNotMatter` | common/recorder.c:257-277 | The test for an earliest timestamp only asks for a stream with enough packets; recording starts without any timestamp exactly if no stream is to be waited for and none of those with enough packets has one |
| `Recorder.Recorder.MarkDiscontinuity` | common/recorder.c:319-331 | What is pending is dropped, muxing stops and every stream waits for a keyframe |
| `Recorder.Recorder.Destroy` | common/recorder.c:293-316 | If muxing, the pending packets of properly ended streams go out, stream by stream; all queues end up empty |
| `Recorder.EveryRunKeepsOrder` | common/recorder.c:225-384 | Over every run, for each stream what went out since the last discontinuity followed by its queue is what was accepted, in order; queues stay within their limit; the first accepted packet is a keyframe |
| `Recorder.FedKeeps` | common/recorder.c:345-384 | One packet keeps that; while muxing, no keyframe of its stream is left behind another packet if and only if the packet was taken or none was before |
| `Recorder.FeedIs` | common/recorder.c:345-384 | A packet is taken if and only if there is room and its stream waits for no keyframe or it is one; that starts the recording exactly if everyone is there, and touches no other stream's queue |
| `Recorder.EndIsRemembered` | common/recorder.c:319-355 | Over every run without a discontinuity, a stream counts as ended exactly if it did or its end was seen |
| `Recorder.ResumesAtKeyframe` | common/recorder.c:319-384 | A stream that waits for a keyframe takes exactly the packets from the first keyframe on |
| `Recorder.OverrunFromTheStart` | common/recorder.c:225-384 | Over every run, while muxing, a full queue holds packets that could go out if and only if it did when muxing started and its stream has not ended since: a stream with room then never gets stuck so |
| `Recorder.FullIsStuck` | common/recorder.c:371-383 | While muxing, a full queue stays as it is over every run of feeds to any streams: nothing more of its stream is taken or goes out |
| `Recorder.EndMakesRoom` | common/recorder.c:345-355 | The end of its stream makes room in a full queue exactly if packets in it could have gone out |
| `Recorder.AQueueIsOverrun` | common/recorder.c:252-384 | A run from a new recorder in which that happens: 256 video packets with two keyframes, then one of audio |
| `Recorder.Recorder.constructor` | common/recorder.c:117-182 | Nothing is muxed or queued yet, and no stream waits for a keyframe |
| `Recorder.MuxedKeeps` | common/recorder.c:225-248 | Muxing neither loses nor reorders, and forced muxing leaves nothing behind |
| `Recorder.EndedKeeps` | common/recorder.c:345-355 | The end of a stream keeps that, and takes no packet |
| `Recorder.InterruptedKeeps` | common/recorder.c:319-331 | A discontinuity starts afresh |
| `Recorder.NothingLostAtEnd` | common/recorder.c:293-316 | At the end a stream that properly ended while muxing has all its packets in the file; any other lacks exactly its queue |

## Left out

- Packet and range pointers are packet numbers and range ids in value sequences held by one `Demuxer` object; aliasing between C structures is not modelled there. The playlist, RealAudio, cue and recorder models keep the objects and arrays.
- Threads, condition variables and wakeups: the protocol's steps are atomic where the source holds its lock, and liveness is not stated.
- DemuxProtocol.NothingLost: sees one stream that is read eagerly, and trusts a seek that resumes a range to land at or before the last cached packet; how a demuxer seeks is not part of this model. Its source has strictly increasing dts, or no dts and strictly increasing pos; nothing is promised of sources ordered by neither.
- DemuxCache.Demuxer.PruneOldPackets: returns false where the source's assertion would fail.
- SeekCompleteness.ExactSeekIsComplete: covers runs with a fixed selection; what a selection leaves of the windows is `SelectionLeavesWindow`. The same holds of `InexactSeekIsComplete`. That a blind round of pruning does no harm if the right packets arrive later is not stated; `ExactSeekLands` is exact for every history.
- ts_offset, bitrate and buffering statistics, cached control commands, the closed-caption stream, the order in which track switches reach the demuxer, and low-level demuxers' own seeking and reading.
- Packet memory: a packet's estimated size is a function of its length and of the share its attached buffers have.
- Rounding of floating-point timestamps, and infinities and NaN in them. The value of an EBML float is kept as its bits.
- EBML: the has_errors flag, messages, slots behind a list's count, ebml_read_element, skipping and resynchronising. Schemas are as deep as the parser's level assertion allows.
- Matroska block headers, decompression, deferred cue reading, and codecs' headers. `stream_read` past the end is a failed read.
- RealAudio.DestIsSlot: for ra_288 it holds of layouts whose pieces tile the buffer (an even number of packets, twice the packet size being the height times the frame size); the others overlap or leave gaps.
- The sipr path of RealAudio.
- CueSeek.FindIndexEntry: products of timecodes and the timecode scale are taken to fit in 64 bits; so are byte counters in the cache.
- Allocation failures everywhere.
- Playlist.Playlist.Shuffle: the random numbers are a parameter. File names, redirects, parsing and freeing of entries.
- ChannelMap.SortedIs: sorting is an insertion sort; qsort itself is not part of this model. String conversion, default layouts, waveext masks, mp_chmap_sel_adjust.
- Resampling and format conversion in the audio converter; only the plane orders are modelled.
- Recorder output timestamps and muxer failures; the file is the sequence of packets handed to the muxer.
