# EmbedAI data hub: a verified model

A Dafny model of the stateful core of the data hub, with proofs of what its parts are for: the
MCAP disk cache of the dataset service, the WebDataset exporter and its worker, stream ingestion
and the chunked upload of the gateway, the frame lookup, and the frame-loading hook of the web
client. All results are for every input, every run or every reachable state; nothing was executed.

Verify with `dafny verify dfyconfig.toml` (Dafny 4.11), from this directory.

## How it is organised

**MCAP cache.** `McapCache` says what one operation does to the ordered dict, the lock table and
the disk; the class in `McapFileCache.dfy` does the same in place, statement by statement, and is
proved against it. `McapCacheRuns`, `McapCacheLru` and `McapCacheExpiry` are about whole sequential
runs, `McapCacheAnswers` about what a request gets and leaves after any of them. `McapCacheConcurrent` is a step system: every section under the global lock is one step,
between steps any other request, the cleanup task, `clear` or another program may act, downloads
may fail or be cancelled, and lock objects are dropped where the code drops them.
`McapCacheSingleFlight`, `McapCacheOverflow` and `McapCacheFailures` settle when "one download per
episode" holds, `McapCacheServed` when a path served is a file.

**Export.** `Sharding` is the next-fit rule, with its optimality and its bounds;
`WebDatasetExporter` holds the loop that fills tar files and the manifest; `DatasetVersions` is the
creation of a version; `ExportWorker` resolves references and runs a job.

**Streams.** `FrameBuffers` is the sliding-window buffer, compacted in place on an array;
`FrameCodec` the length-prefixed format; `StreamServers` the event loop and the seal, over a script
of what `select` delivers and which writes succeed; `StreamResults` what a stream leaves in the row
table and the object store.

**Upload.** `ChunkedUpload` has the chunk arithmetic (with the float64 rounding of the size), the
keys and the object store. `UploadProtocol` interleaves any number of init, chunk and complete
requests one database or store operation at a time; each may succeed, fail, or take effect and
still be reported as failed. `UploadSafety`, `UploadReconstruction` and `UploadCounting` are about
all its runs, `UploadAlone` about requests that nobody interrupts, `UploadResent` has two runs in
which a chunk is sent twice.

**Frames.** `FrameLookup` is the nearest-timestamp scan. `FetchPool` is `runWithConcurrency` as a
step system over tasks that settle in any order, or reject. `FrameCache` runs overlapping
`loadFrames` and `preloadFrames` calls over one cache; `FrameSafety` and `FramePeak` are about all
such runs, `FrameResults` about what they achieve, `FrameEpisode` about a hook whose episode changes,
`FrameNewest` about loads that return out of order.

`Decimal` holds the number formats that every generated name ends in, `Bytes.dfy` two shared
types, `Collections` facts about sets and products.

## What turned out not to hold

Where a promise fails, the model keeps the code's behaviour and proves when the promise holds:

- Per-episode locks "prevent duplicate downloads" (docs/plans/2026-03-10-mcap-file-cache.md), in runs
  without failed downloads, expiry, clear and deletion, only while all requested episodes fit in the
  cache: `SingleFlightIffAllFit`, with a run that downloads one episode twice at once as soon as there
  is one episode more. In those same runs every path served is on disk when it is served, under
  exactly that same condition: `ServedIsPresentIffAllFit`. If downloads may fail, requests for
  episodes that do fit are kept apart if and only if no episode is asked for three times:
  `SingleFlightDespiteFailuresIff`.
- With `max_size` below one, a request leaves an orphan file and a lock behind:
  `DiskAndLocksMatchCache` holds if and only if the limit is at least one.
- The upload's floating-point chunk count is one too small for sizes that round down to a chunk
  boundary, from 2^53 + 1 bytes: `ChunkCountExactIff`, `ComposeGivesFileIff`.
- The count test of a complete request counts requests whose increment took effect, be it reported or
  not. A passed test means that every chunk is stored if and only if as many different indices were
  written as requests counted; if every index written was counted, that is: if and only if no index
  was counted twice (`PassedTestMeansStoredIff`, for every run, whatever fails). With chunk 0 of two
  sent twice, for no reason or because its first increment took effect and reported an error, the
  test passes without chunk 1, and no longer passes with it: `ResentChunkFoolsTheTest`. If each index
  is sent at most once, whatever fails, the test passes exactly when every chunk is stored and every
  store was counted: `SentOnceTestIff`.
- The time and the bytes of a looked-up frame are of one message if and only if the message the
  log and the request determine, the last of the ever closer candidates before the loop breaks,
  deserializes: `TimeAndBytesAgreeIff`, `MismatchExample`. A file whose start time lies after its
  end time makes clamping non-monotone: `ClampIsMonotoneIff`.
- Resolution drops references whose id string is not in canonical form, so a manifest counts as many
  episodes as its version if and only if all are: `ManifestCountsVersionIff`,
  `OtherSpellingIsDropped`.
- A job whose export completed is still marked failed when its message cannot be acknowledged:
  `HandleMessage`.
- Frame requests in flight can reach two for every overlapping call: `PeakIsTwoPerCall`. The comment
  above the constant has two calls in mind; its `MAX_CONCURRENT * 2` is exceeded from the third on.
- A superseded load that returns later replaces the frames of the newer one, so the display never goes
  back if and only if there is at most one load: `NeverGoesBackIff`.
- Frames displayed are those of the episode they were loaded for only while one hook serves one
  episode, since the cache outlives a change of episode and its keys do not name it:
  `OwnFramesIffOneEpisode`.
- The timestamp sent for a frame is rounded after the cache key was made, and may fall in the next
  bucket: `SentBucketIff`.

The manifest records local tar paths, numbered from 1; the uploaded objects are numbered from 0. The
model keeps both.

## Model

| member | source | states |
|---|---|---|
| McapCacheClass.McapFileCache.constructor | services/dataset-service/app/services/mcap_cache.py:23-35 | a new cache is empty, whatever is in the directory |
| McapCacheClass.McapFileCache.GetOrDownload | services/dataset-service/app/services/mcap_cache.py:37-92 | the fields and the answer after one request, hit, miss, missing file, failed download and the KeyError of an empty dict included |
| McapCacheClass.McapFileCache.ListExpired | services/dataset-service/app/services/mcap_cache.py:96-102 | the ids past their time to live, each once |
| McapCacheClass.McapFileCache.Pop | services/dataset-service/app/services/mcap_cache.py:103-106 | one entry, its lock and its file go, nothing else |
| McapCacheClass.McapFileCache.CleanupExpired | services/dataset-service/app/services/mcap_cache.py:94-107 | exactly the expired entries, their locks and their files are gone; the order of the rest stays |
| McapCacheClass.McapFileCache.Clear | services/dataset-service/app/services/mcap_cache.py:109-115 | no entry and no lock is left, and every cached file is unlinked |
| McapCacheClass.McapFileCache.RemoveFile | services/dataset-service/app/services/mcap_cache.py:117-121 | unlinks one path; a missing file is no error |
| McapCacheRuns.DiskAndLocksMatchCache | services/dataset-service/app/services/mcap_cache.py:53-59 | after every operation of every sequential run the files on disk are the cached ids' paths (besides what others keep there) and the lock table's keys are the cached ids, through failed downloads, evictions, expiry and clear; if and only if the size limit is at least one |
| McapCacheRuns.StoredMissKeeps | services/dataset-service/app/services/mcap_cache.py:83-90 | evicting while full and inserting the downloaded episode leaves neither an orphan file nor a leaked lock |
| McapCacheRuns.CleanupKeeps | services/dataset-service/app/services/mcap_cache.py:94-107 | cleanup keeps disk, locks and dict in step |
| McapCacheLru.CacheIsMostRecentlyUsed | services/dataset-service/app/services/mcap_cache.py:44-92 | the cached ids in order are exactly the `max_size` most recently used distinct ids of the successful requests |
| McapCacheLru.FailedDownloadChangesNothing | services/dataset-service/app/services/mcap_cache.py:74-81 | a failed download, partial file included, changes neither dict, locks nor disk; it can only happen to an episode that is not cached |
| McapCacheLru.LargerCacheHoldsMore | services/dataset-service/app/services/mcap_cache.py:83-90 | on the same failure-free requests a cache with a larger limit holds what the smaller holds, and more of the older ones |
| McapCacheLru.LargerCacheHitsMore | services/dataset-service/app/services/mcap_cache.py:45-51 | so hits never decrease as the limit grows |
| McapCacheAnswers.RequestIsAnswered | services/dataset-service/app/services/mcap_cache.py:37-92 | after any sequential run, deletions by others included: a request fails exactly if the episode or its file is missing and its download fails; otherwise the answer is the episode's own path, the file is there, and the episode is the most recently used one, at the time of the request; the other entries and files stay, but for the oldest entry if there is no room |
| McapCacheAnswers.ClearLeavesForeignFiles | services/dataset-service/app/services/mcap_cache.py:109-115 | after any run `clear` leaves no entry, no lock, and exactly the files that are not the cache's |
| McapCacheExpiry.VictimIsStalest | services/dataset-service/app/services/mcap_cache.py:84-90 | under a non-decreasing clock the entry eviction takes has the smallest last-access time |
| McapCacheExpiry.CleanupRemovesExpiredPrefix | services/dataset-service/app/services/mcap_cache.py:94-107 | cleanup removes exactly a prefix of the LRU order, and leaves only entries within their time to live |
| McapCacheConcurrent.StepIsSafe | services/dataset-service/app/services/mcap_cache.py:44-92 | no step of any interleaving makes the dict exceed its limit, repeat a key or hold a foreign path |
| McapCacheConcurrent.CacheIsBounded | services/dataset-service/app/services/mcap_cache.py:83-90 | nor does any run: at most `max_size` entries, each with its own path, failures, cancellations, lock drops and deletions by others included; and from any state of a run the evict loop ends by its own test |
| McapCacheConcurrent.EvictMakesRoom | services/dataset-service/app/services/mcap_cache.py:84-88 | the evict loop ends below the limit, and unlinks only files of entries it popped |
| McapCacheConcurrent.OnlyOwnFilesUnlinked | services/dataset-service/app/services/mcap_cache.py:71-90 | a cached episode loses its file only to somebody outside or to a request for that same episode |
| McapCacheConcurrent.AnswersAreOwnPaths | services/dataset-service/app/services/mcap_cache.py:45-92 | in every interleaving each request is answered with the path of its own episode |
| McapCacheConcurrent.AnswerRenews | services/dataset-service/app/services/mcap_cache.py:45-90 | answering a request leaves its episode cached with the time of the answer; a hit moves it behind all others and changes nothing else |
| McapCacheConcurrent.SecondLookOnlyLooks | services/dataset-service/app/services/mcap_cache.py:61-69 | a second look that misses changes nothing, not even an entry whose file is missing |
| McapCacheConcurrent.AloneIsSequential | services/dataset-service/app/services/mcap_cache.py:37-92 | a request run alone through the step system does, and is answered, what the sequential operation says |
| McapCacheConcurrent.MaintenanceIsSequential | services/dataset-service/app/services/mcap_cache.py:94-115 | so do the cleanup task and `clear` |
| McapCacheSingleFlight.AcquireKeeps | services/dataset-service/app/services/mcap_cache.py:61-69 | with no lock object dropped, whoever gets the episode lock is the only one between the second check and the insert |
| McapCacheSingleFlight.OneDownloadPerEpisode | services/dataset-service/app/services/mcap_cache.py:45-92 | in every interleaving of requests for at most `max_size` episodes, without expiry, clear or deletion, and either without failed downloads or with at most two requests for each episode: one download per episode in flight, and exactly one for each episode served |
| McapCacheSingleFlight.GiveUpKeeps | services/dataset-service/app/services/mcap_cache.py:74-81 | with at most two requests for each episode, dropping the lock object after a failure leaves whoever else asked for the episode alone with it |
| McapCacheSingleFlight.StoreAppends | services/dataset-service/app/services/mcap_cache.py:83-90 | with room for every episode asked for, storing one never evicts |
| McapCacheOverflow.SingleFlightIffAllFit | services/dataset-service/app/services/mcap_cache.py:57-61 | without failed downloads that is so for `n` distinct episodes if and only if `n` is at most `max_size`; with one more, downloads finishing within one iteration of the event loop break it |
| McapCacheFailures.SingleFlightDespiteFailuresIff | services/dataset-service/app/services/mcap_cache.py:57-81 | with failed downloads it is so for episodes that fit, each asked for at most `m` times, if and only if `m` is at most two |
| McapCacheServed.ServedIsPresentIffAllFit | services/dataset-service/app/services/mcap_cache.py:83-92 | in every run without failed downloads, expiry, clear and deletion a path is on disk when it is served, for `n` distinct episodes if and only if `n` is at most `max_size` |
| McapCacheServed.ServedStaysPresent | services/dataset-service/app/services/mcap_cache.py:45-92 | while all episodes fit, the file of every request served also stays |
| McapCacheServed.StoreUnlinksOwn | services/dataset-service/app/services/mcap_cache.py:84-90 | a store whose own episode is the oldest entry of a full cache unlinks the file just downloaded and serves its path |
| Sharding.ShardsAreASplit | services/export-worker/worker/exporters/webdataset.py:79-95 | the shards one after the other are all samples once in order; none is empty; each later sample was admitted; a shard is closed only because the next sample would not fit |
| Sharding.ShardSizeBound | services/export-worker/worker/exporters/webdataset.py:84-93 | a shard of two or more samples exceeds the limit by at most its last annotation |
| Sharding.FewestShards | services/export-worker/worker/exporters/webdataset.py:79-95 | no order-preserving split whose groups fit has fewer groups |
| Sharding.StaysAhead | services/export-worker/worker/exporters/webdataset.py:84-88 | on every prefix the loop has fewer groups than any split, or as many with a last one no longer |
| Sharding.ShardCountBound | services/export-worker/worker/exporters/webdataset.py:84-95 | at most `2 * total / limit + 1` shards |
| WebDatasetExporter.Export | services/export-worker/worker/exporters/webdataset.py:49-98 | the loop produces the records, the tar contents and the manifest of the next-fit shards |
| WebDatasetExporter.SampleNamesDistinct | services/export-worker/worker/exporters/webdataset.py:82 | sample names are pairwise distinct whatever the episode ids are |
| WebDatasetExporter.ShardPathsDistinct | services/export-worker/worker/exporters/webdataset.py:87 | no shard is written over another |
| WebDatasetExporter.ManifestAgrees | services/export-worker/worker/exporters/webdataset.py:112-125 | the manifest's counts and total size are those of the samples, and its shard count keeps the bound |
| WebDatasetExporter.ExportConserves | services/export-worker/worker/exporters/webdataset.py:90-95 | reading the tars back in order gives two members for each reference, in order: under its name, as `.mcap` the bytes its storage path loads, as `.json` its annotations |
| WebDatasetExporter.ManifestDescribesTars | services/export-worker/worker/exporters/webdataset.py:112-125 | the manifest lists exactly the tars written, in order, each with the number of bytes and samples it holds; its totals are those of all tars |
| WebDatasetExporter.SampleNameSays | services/export-worker/worker/exporters/webdataset.py:82 | a sample's name gives the first eight characters of its episode's id and its index |
| WebDatasetExporter.ShardPathSays | services/export-worker/worker/exporters/webdataset.py:87 | a tar's name gives the number of its shard |
| DatasetVersions.CountTestMeansDistinctAndInProject | services/dataset-service/app/routers/datasets.py:195-203 | comparing the number of rows found with the number of references accepts exactly distinct ids that are all in the project |
| DatasetVersions.VersionCreatedIff | services/dataset-service/app/routers/datasets.py:183-228 | when a version is created, and the reference list, count and total size it records; which error is reported otherwise |
| ExportWorker.GroupAnnotations | services/export-worker/worker/main.py:149-166 | the dictionary holds for every referenced episode exactly its approved annotations, in row order |
| ExportWorker.ResolveEpisodeRefs | services/export-worker/worker/main.py:138-184 | what the references resolve to, against the tables as they are now; a malformed id raises |
| ExportWorker.ResolutionKeepsAllIff | services/export-worker/worker/main.py:168-184 | every reference is kept, in order, with its clip and its approved annotations, if and only if every id string is canonical and every episode still exists |
| ExportWorker.ResolvedAreSurvivors | services/export-worker/worker/main.py:168-184 | exactly the references that survive are resolved, in order, each to its own id and clip, the storage path of its episode's row or an empty one, and its episode's approved annotations |
| ExportWorker.ApprovedForCounts | services/export-worker/worker/main.py:149-166 | a payload is attached to an episode exactly as often as the table holds it, approved, for that episode |
| ExportWorker.ApprovedForConcat | services/export-worker/worker/main.py:149-166 | ... in the order of the rows |
| ExportWorker.ManifestCountsVersionIff | services/export-worker/worker/main.py:95-114 | if no episode was deleted since, the manifest never counts more episodes than the version, and as many if and only if every id string is canonical |
| ExportWorker.OtherSpellingIsDropped | services/export-worker/worker/main.py:168-184 | for any string that is not canonical but denotes an episode of the project: a version of that one reference is created with count one, and its manifest counts none |
| ExportWorker.KeysDistinct | services/export-worker/worker/main.py:120-126 | object keys of shards and manifest never collide |
| ExportWorker.ShardsAreThere | services/export-worker/worker/main.py:119-121 | after any number of uploads each shard is in the bucket under its own key, with its own content |
| ExportWorker.OtherObjectsStay | services/export-worker/worker/main.py:119-126 | uploading touches no object but the shards' and the manifest's |
| ExportWorker.NotYetUploaded | services/export-worker/worker/main.py:119-126 | after some of the uploads the keys of the others are as before |
| ExportWorker.ExportJob.constructor | services/export-worker/worker/main.py:89-95 | a new job is pending, at zero, without a manifest URL |
| ExportWorker.ExportJob.UploadAndComplete | services/export-worker/worker/main.py:119-131 | bucket, progress, status and manifest URL after the uploads and commits, whichever of them raises first; progress grows and ends at 100; completed only after the manifest is up |
| ExportWorker.ExportJob.HandleMessage | services/export-worker/worker/main.py:80-132 | for a job in any status: a message is acknowledged exactly if references parse and every upload, commit and the acknowledgement succeed; status and manifest URL in every case; what a completed job left in the bucket |
| ExportWorker.ExportJob.Execute | services/export-worker/worker/main.py:89-132 | a job completes exactly if its version exists, the references parse, and every upload and commit succeeds |
| FrameLookup.ExtractFrame | services/dataset-service/app/services/frame_extractor.py:78-193 | the loop with its break and continues computes the scan of the clamped target |
| FrameLookup.ScanSelects | services/dataset-service/app/services/frame_extractor.py:129-184 | with decodable candidates the scan keeps the first one within the tolerance, or the first of the closest |
| FrameLookup.LookupSelects | services/dataset-service/app/services/frame_extractor.py:186-193 | the answer is that message's own bytes and time; it is selected for the requested time itself if that lies in the file's range |
| FrameLookup.SelectionIsMonotone | services/dataset-service/app/services/frame_extractor.py:141-184 | in log-time order a later target never selects an earlier message |
| FrameLookup.LookupIsMonotone | services/dataset-service/app/services/frame_extractor.py:99-193 | a larger requested timestamp never yields an earlier frame, across clamping, early exit and fallback |
| FrameLookup.ClampIsMonotoneIff | services/dataset-service/app/services/frame_extractor.py:102-109 | clamping is monotone if and only if the file's start is not after its end |
| FrameLookup.ClampIsNearest | services/dataset-service/app/services/frame_extractor.py:102-109 | a target in the file's range stays, any other becomes the nearest time of the range |
| FrameLookup.AnswersAreImages | services/dataset-service/app/services/frame_extractor.py:129-184 | for every log, the bytes of an answer are those of a message of the topic with one of the four image schemas and three encodings |
| FrameLookup.ImagesAreFound | services/dataset-service/app/services/frame_extractor.py:129-193 | a topic whose messages are all such images and decode gets an answer |
| FrameLookup.TimeAndBytesAgreeIff | services/dataset-service/app/services/frame_extractor.py:125-193 | for every log, decodable or not: the answer has the time of the chosen message and the bytes of the last ever closer candidate up to it that deserializes; these are one message if and only if the chosen one deserializes |
| FrameLookup.ScanEndsWithChosen | services/dataset-service/app/services/frame_extractor.py:129-184 | which message the loop ends with, said of the messages and the request alone; there is one exactly if there is a candidate |
| FrameLookup.OneChosen | services/dataset-service/app/services/frame_extractor.py:129-184 | and only one |
| FrameLookup.NothingChosen | services/dataset-service/app/services/frame_extractor.py:186-187 | without one there is no answer |
| FrameLookup.MismatchExample | services/dataset-service/app/services/frame_extractor.py:141-175 | they need not be: the bytes of one message with the time of a broken one |
| FrameBuffers.CutoffNeverWrapsIff | services/gateway/internal/grpc/frame_buffer.go:94 | the 64-bit cutoff never wraps for a positive timestamp if and only if the window is not negative |
| FrameBuffers.EvictionFiltersHistory | services/gateway/internal/grpc/frame_buffer.go:29-39 | evicting frame by frame equals filtering the whole history since the last reset |
| FrameBuffers.SurvivesIff | services/gateway/internal/grpc/frame_buffer.go:93-103 | a frame is kept if and only if it is within the window of every positive timestamp from it on |
| FrameBuffers.NewestSurvives | services/gateway/internal/grpc/frame_buffer.go:36-38 | a new frame survives its own eviction |
| FrameBuffers.MaxSeqIsMaximum | services/gateway/internal/grpc/frame_buffer.go:33-35 | the tracked number is the maximum over all frames added, evicted ones included |
| FrameBuffers.FrameBuffer.constructor | services/gateway/internal/grpc/frame_buffer.go:24-26 | a new buffer is empty |
| FrameBuffers.FrameBuffer.EvictExpired | services/gateway/internal/grpc/frame_buffer.go:93-103 | compaction in place leaves exactly the frames at or after the cutoff, in order |
| FrameBuffers.FrameBuffer.AppendAndEvict | services/gateway/internal/grpc/frame_buffer.go:32-38 | frames and last number after one frame |
| FrameBuffers.FrameBuffer.Add | services/gateway/internal/grpc/frame_buffer.go:29-39 | the buffer holds exactly the surviving frames of its history, one frame longer |
| FrameBuffers.FrameBuffer.LastSeq | services/gateway/internal/grpc/frame_buffer.go:42-46 | the maximum over the history |
| FrameBuffers.FrameBuffer.Len | services/gateway/internal/grpc/frame_buffer.go:49-53 | the number of surviving frames |
| FrameBuffers.FrameBuffer.Reset | services/gateway/internal/grpc/frame_buffer.go:56-61 | nothing is left, and the history starts again |
| FrameCodec.Serialize | services/gateway/internal/grpc/frame_buffer.go:67-89 | gives a serialization of the buffered frames, fails exactly if one does not marshal, and changes nothing |
| FrameCodec.SortBySeq | services/gateway/internal/grpc/frame_buffer.go:73-75 | a sorted copy; equal numbers in any order |
| FrameCodec.EncodeAll | services/gateway/internal/grpc/frame_buffer.go:77-88 | the length-prefixed records of the frames in order |
| FrameCodec.Uint32RoundTrip | services/gateway/internal/grpc/frame_buffer.go:83-84 | the 4-byte big-endian length reads back |
| FrameCodec.BigEndianOrder | services/gateway/internal/grpc/frame_buffer.go:83-84 | most significant byte first: bytes compare as the numbers do |
| FrameCodec.SerializationRoundTrip | services/gateway/internal/grpc/frame_buffer.go:66-88 | parsing consumes everything and gives a permutation of the buffered frames by ascending number |
| FrameCodec.ConcatenationRoundTrip | services/gateway/internal/grpc/frame_buffer.go:66 | concatenated serializations parse to the concatenated lists |
| StreamServers.StreamServer.Persist | services/gateway/internal/grpc/stream_server.go:160-182 | rows, objects, effects and result of the four writes, whichever fails, or takes effect and reports an error |
| StreamServers.StreamServer.SealEpisode | services/gateway/internal/grpc/stream_server.go:153-183 | the same for a seal of the buffer; a buffer that does not serialize leaves everything alone |
| StreamServers.StreamServer.SealOnClose | services/gateway/internal/grpc/stream_server.go:87-109 | on inactivity, end of stream or cancel a stream is sealed exactly if it ever received a frame |
| StreamServers.StreamServer.SealAndAck | services/gateway/internal/grpc/stream_server.go:128-138 | on a last frame: sealed, and acknowledged with the episode or an error |
| StreamServers.StreamServer.OpenStream | services/gateway/internal/grpc/stream_server.go:60-148 | everything a stream does to the log, the rows and the objects, for every script |
| StreamServers.StreamLaws | services/gateway/internal/grpc/stream_server.go:85-183 | at most one seal attempt, and exactly one where there must be one; acks echo the received numbers in order; an event follows the row, the object and the row's update |
| StreamServers.SealedBytesAreTheWindow | services/gateway/internal/grpc/stream_server.go:153-172 | the serialized bytes parse to the frames within the window, sorted, the last received one among them |
| StreamResults.StoredIsTheWindow | services/gateway/internal/grpc/stream_server.go:153-183 | whatever the script and whichever write fails or gets lost: only the new episode's row and object may change; an object stored holds exactly the window; a row that names an object is complete, with the object's size; every event is for such a row |
| StreamResults.PublishesIff | services/gateway/internal/grpc/stream_server.go:153-183 | a stream publishes an event exactly if it is sealed, no write fails or gets lost, and the event goes out |
| StreamResults.AcksTellTheOutcome | services/gateway/internal/grpc/stream_server.go:112-138 | frames are acknowledged with "ok"; a last frame with the new episode's id exactly if it is sealed and every write succeeds, and then the row is complete, otherwise with "error" |
| StreamResults.LeftBehindIff | services/gateway/internal/grpc/stream_server.go:160-175 | which of row, object and path a failed seal leaves behind |
| StreamResults.LoggedEffectsStand | services/gateway/internal/grpc/stream_server.go:153-183 | every write of a stream stands at its end as it was made |
| StreamResults.ConsumedMeans | services/gateway/internal/grpc/stream_server.go:85-148 | which frames a stream receives and how it ends: at the first last frame, ack that cannot be sent, failed receive, end, cancel or inactivity |
| StreamResults.SessionIsFirst | services/gateway/internal/grpc/stream_server.go:114-117 | the session is that of the first frame that has one |
| StreamResults.StreamPathsDistinct | services/gateway/internal/grpc/stream_server.go:169 | different episodes never share an object |
| ChunkedUpload.ChunkCountExactIff | services/gateway/internal/handler/upload.go:83 | the floating-point chunk count is the exact ceiling if and only if the size does not round down to a chunk boundary; always up to 2^53 |
| ChunkedUpload.ChunkCountFailsJustPast2To53 | services/gateway/internal/handler/upload.go:83 | the first size it fails for |
| ChunkedUpload.RoundedIsNearestEven | services/gateway/internal/handler/upload.go:83 | the conversion of the size to floating point gives the nearest representable number, of two the even one |
| ChunkedUpload.SpacingIs53Bits | services/gateway/internal/handler/upload.go:83 | representable means 53 significant bits |
| ChunkedUpload.ChunksConcat | web/src/api/episodes.ts:136-139 | the first `n` slices concatenated are the first `n` chunk sizes of the file, or all of it |
| ChunkedUpload.ComposeGivesFileIff | web/src/api/episodes.ts:136-141 | all slices concatenated are the file under that same condition; none is empty or too long |
| ChunkedUpload.ChunkKeysInjective | services/gateway/internal/storage/minio.go:44 | chunk keys never collide, within a session or across sessions |
| ChunkedUpload.ChunkKeyIsNoPath | services/gateway/internal/storage/minio.go:44 | nor with an episode's path |
| ChunkedUpload.MinioStorage.constructor | services/gateway/internal/storage/minio.go:19-29 | a new store is empty |
| ChunkedUpload.MinioStorage.UploadChunk | services/gateway/internal/storage/minio.go:43-47 | one object is written, under the chunk's key |
| ChunkedUpload.MinioStorage.AssembleChunks | services/gateway/internal/storage/minio.go:50-63 | composes the chunks in order, only if all are there, otherwise changes nothing |
| ChunkedUpload.MinioStorage.DeleteChunks | services/gateway/internal/storage/minio.go:66-71 | removes exactly the chunks of the session |
| ChunkedUpload.MinioStorage.UploadEpisodeFile | web/src/api/episodes.ts:136-143 | the client's loop against the store, then the compose: the file, under that same condition |
| UploadProtocol.InitStep | services/gateway/internal/handler/upload.go:53-102 | a step of an init request adds at most one row, under the id drawn, and changes no other row, object or event |
| UploadProtocol.CreateEpisode | services/gateway/internal/repo/episode.go:44-52 | inserts exactly the announced episode in status uploading, unless it fails; no session, object or event changes |
| UploadProtocol.CreateUploadSession | services/gateway/internal/repo/episode.go:82-91 | inserts exactly a session in progress with the chunk count of the announced size, unless it fails; no episode, object or event changes |
| UploadProtocol.ChunkStep | services/gateway/internal/handler/upload.go:106-142 | a step of a chunk request stores its own chunk, or counts one more for its session, or neither; it changes no episode and logs nothing |
| UploadProtocol.CompleteStep | services/gateway/internal/handler/upload.go:145-197 | a step of a complete request appends at most one effect, and removes no row |
| UploadProtocol.UpdateEpisode | services/gateway/internal/repo/episode.go:73-79 | sets status and path of exactly the episode, unless it fails; sessions and objects stay |
| UploadProtocol.CountChunk | services/gateway/internal/repo/episode.go:108-114 | counts exactly one more for exactly the session, unless it fails; episodes, objects and events stay |
| UploadProtocol.CompleteSession | services/gateway/internal/repo/episode.go:117-123 | completes exactly the session, unless it fails; episodes and objects stay |
| UploadSafety.MoverHolds | services/gateway/internal/handler/upload.go:157-187 | whatever a complete request is about to do, what it read still holds and what comes before has been done, in order |
| UploadSafety.StepSettles | services/gateway/internal/handler/upload.go:171-190 | composed objects and ingested rows are never undone |
| UploadSafety.EventImpliesIngested | services/gateway/internal/handler/upload.go:171-187 | an event is published only after the object was composed to its path, then the session completed, then the row set to processing with that path; at least as many chunk requests were counted as there are chunks; and object, session and row still hold at the end of the run |
| UploadSafety.CompletedIsClosed | services/gateway/internal/handler/upload.go:115-156 | a chunk or complete request that comes after its session was completed is turned away |
| UploadSafety.RecordedEpisodesAreValid | services/gateway/internal/handler/upload.go:54-64 | whatever is announced, only episodes with a name, a positive size and one of the two formats are recorded |
| UploadAlone.CompleteAlone | services/gateway/internal/handler/upload.go:145-197 | a complete request that nobody interrupts leaves exactly the composed object, the completed session, the processing row, the event if it went out, and no chunk |
| UploadAlone.InitAlone | services/gateway/internal/handler/upload.go:53-102 | an init request that nobody interrupts leaves an uploading episode and a session that counts its chunks |
| UploadAlone.ChunkAlone | services/gateway/internal/handler/upload.go:106-142 | a chunk request that is accepted, not interrupted and stores its chunk counts it once, unless the increment fails outright; it is rejected unless the increment reports success |
| UploadAlone.DeletesAll | services/gateway/internal/storage/minio.go:66-71 | the clean-up steps remove exactly the chunks from the first on |
| UploadReconstruction.ComposedIsTheFileIff | services/gateway/internal/storage/minio.go:49-63 | for any arrival order, re-uploads, sessions and failures, every compose that takes effect stores the session's file, if and only if its size does not round down to a chunk boundary |
| UploadReconstruction.PublishedObjectIsTheFileIff | services/gateway/internal/handler/upload.go:171-187 | at the end of any run the object an event points to is the file of the one session of its episode, under the same condition |
| UploadReconstruction.InitStepKeepsOwned | services/gateway/internal/handler/upload.go:72-94 | no two sessions share an episode |
| UploadReconstruction.InitStepKeepsSized | services/gateway/internal/handler/upload.go:83-94 | a session counts the chunks of the size its init request announced |
| UploadReconstruction.StepKeepsChunks | services/gateway/internal/handler/upload.go:130-133 | every stored chunk is the slice its key says, after any step |
| UploadReconstruction.PathNamesEpisode | services/gateway/internal/handler/upload.go:170 | an episode's path names its id and its file |
| UploadCounting.CountAndStoreIff | services/gateway/internal/handler/upload.go:130-162 | in every run, whatever fails or takes effect and reports an error: a session not completed passes the count test exactly if as many requests were counted as there are chunks, and is completely stored exactly if as many different indices were written |
| UploadCounting.PassedTestMeansStoredIff | services/gateway/internal/handler/upload.go:157-162 | in every run, a passed count test means that every chunk is stored if and only if as many different indices were written as requests counted; no index counted twice suffices, and is the exact condition if every index written was counted |
| UploadCounting.CountTestAfterAllStoredIff | services/gateway/internal/handler/upload.go:135-162 | in every run, once all chunks are stored, the test passes exactly if as many requests were counted as different indices written; if every one of these was counted, exactly if none was counted twice |
| UploadResent.ResentChunkFoolsTheTest | services/gateway/internal/handler/upload.go:135-162 | chunk 0 of two sent twice, the first increment reporting success, or taking effect and reporting an error: the test passes with chunk 1 missing, and does not pass once it is stored |
| UploadCounting.SentOnceTestIff | services/gateway/internal/handler/upload.go:130-162 | if each index is sent at most once, whatever fails, the test passes exactly when every chunk is stored and every store was counted |
| UploadCounting.CountTestIff | services/gateway/internal/handler/upload.go:157-162 | if each index is sent at most once and moreover no store or increment fails or is lost, the test passes exactly when every chunk is stored and no request is between its store and its increment |
| UploadCounting.StepKeepsStored | services/gateway/internal/handler/upload.go:130-138 | until a session is completed, a chunk is stored exactly if some request's store of it took effect, reported or not |
| UploadCounting.StepKeepsCounts | services/gateway/internal/repo/episode.go:107-114 | the counter is the number of requests whose increment took effect, reported or not |
| FetchPool.AtMostConcurrencyRun | web/src/hooks/useMcapFrames.ts:25-46 | at most `concurrency` tasks run, one if it is below one, and the loop waits only when the limit is reached |
| FetchPool.ReturnsWhenAllFinished | web/src/hooks/useMcapFrames.ts:32-45 | items are started in order, each once; it returns only when every task has finished, and throws only if one rejected |
| FetchPool.AlwaysEnds | web/src/hooks/useMcapFrames.ts:40-45 | no run is longer than four steps per item and two, and one that cannot go on has returned, or thrown because a task rejected |
| FetchPool.SpliceOutRemoves | web/src/hooks/useMcapFrames.ts:34-37 | a finished task takes exactly itself off the list |
| FrameCache.CacheKeysEqualIff | web/src/hooks/useMcapFrames.ts:16-17 | keys are equal exactly for the same topic and 100 ms bucket |
| FrameCache.SentBucketIff | web/src/api/episodes.ts:164-170 | the rounded timestamp sent lies in the key's bucket exactly if the unrounded one is not within half a nanosecond of the next |
| FrameCache.SupersededStartsNoFetch | web/src/hooks/useMcapFrames.ts:67-117 | a superseded load starts no further request, whatever happens |
| FrameSafety.RequestsAreBounded | web/src/hooks/useMcapFrames.ts:80-117 | each call has at most two requests in flight, never throws, and makes the request for an entry of its topic list at most once |
| FrameSafety.CachedFramesBelong | web/src/hooks/useMcapFrames.ts:89-106 | every cached URL was fetched for its key's own topic and bucket |
| FrameSafety.ShownFramesBelong | web/src/hooks/useMcapFrames.ts:119-124 | what is displayed is a finished load, each frame fetched for its topic and the bucket of the load's timestamp |
| FrameSafety.CachedIsNeverRefetched | web/src/hooks/useMcapFrames.ts:91-106 | once a frame is cached, no call, earlier or later, load or preload, starts a request for its topic and bucket |
| FrameResults.CacheIsTheLatestAnswers | web/src/hooks/useMcapFrames.ts:98-151 | the cache holds a frame for a topic and bucket exactly if a request for them was answered, and it is that of the latest answer |
| FrameResults.ArrivalIsCached | web/src/hooks/useMcapFrames.ts:104-151 | an answer is cached whichever kind of call asked, and a load collects it for its topic |
| FrameResults.AnswerServesAll | web/src/hooks/useMcapFrames.ts:91-151 | from an answer on, to a preload or a load, no call begins a request for its topic and bucket |
| FrameResults.LoadsShowEveryTopic | web/src/hooks/useMcapFrames.ts:80-124 | if no request fails, a load that returns without being superseded has a frame for every topic |
| FrameResults.SupersededIff | web/src/hooks/useMcapFrames.ts:67-76 | a call is superseded exactly if it is a load and a later call is a load, too |
| FrameEpisode.OwnFramesIffOneEpisode | web/src/hooks/useMcapFrames.ts:48-51 | every frame displayed was fetched for the episode of the load displaying it, if and only if the hook serves at most one episode |
| FrameEpisode.SwitchShowsOther | web/src/hooks/useMcapFrames.ts:89-95 | a load for a second episode displays the cached frame of the first |
| FramePeak.PeakIsTwoPerCall | web/src/hooks/useMcapFrames.ts:19-23 | `n` overlapping calls stay within a number of requests exactly from `2 * n` on |
| FrameNewest.NeverGoesBackIff | web/src/hooks/useMcapFrames.ts:119-124 | no step of any run with `n` loads replaces displayed frames by those of an older load, if and only if `n` is at most one |
| FrameNewest.OlderReplacesNewer | web/src/hooks/useMcapFrames.ts:119-124 | two loads, the second returning first: its frames are displayed, then those of the first |

## Left out

- HTTP, authentication, SQL, Redis and S3 transport: rows, objects, locks and events are abstract maps and logs, and every write is a step that may fail.
- `proto.Marshal` and `Unmarshal`, MCAP and ROS deserialization, image decoding, the tar byte layout, `json.dumps`, SHA-256 and UUID parsing: functions given as parameters; only that encode and decode are inverse, that a message stays below 4 GiB, and that the hash is injective is used, where a statement says so.
- Clocks and timers: the cache's clock is the argument `now`; inactivity and cleanup may happen at any point.
- McapCacheClass.McapFileCache.RemoveFile: an unlink of an existing file that fails is not modelled.
- McapCacheConcurrent.AloneIsSequential: each section under the global lock is one step, since it contains no `await`; real threads are not modelled.
- McapCacheClass.McapFileCache.GetOrDownload: run alone, so the second check under the episode lock never hits; the step system has it hit.
- ExportWorker.ExportJob.Execute: a commit that takes effect and still raises is not modelled.
- ExportWorker.ExportJob.HandleMessage: a message without a job id or for a job that no longer exists, which is acknowledged and skipped, and the raw export format are not modelled; nor are errors of the loader.
- ExportWorker.ExportJob.UploadAndComplete: progress is a real number, without floating-point rounding.
- WebDatasetExporter.ShardPathsDistinct: joining paths is concatenation with a slash; a directory given with a trailing slash, or an absolute file name, is not treated specially.
- FrameLookup.ExtractFrame: opening and caching the reader lazily is left out; messages come in the order the reader yields them.
- StreamServers.StreamServer.OpenStream: the goroutine that receives one frame at a time is the script.
- UploadProtocol.InitStep: the checksum, the project id and the expiry time of a session are left out; the handlers never check them.
- UploadProtocol.CompleteStep: limits of the object store on the number and size of composed parts are left out; a compose may fail for any reason.
- UploadReconstruction.ComposedIsTheFileIff: clients are taken to announce the size of their file and to slice that file, and generated ids to have no slash; the checksum of a file is never compared by the code.
- FetchPool.AtMostConcurrencyRun: steps of the loop may be interleaved with settling tasks more freely than one JavaScript thread does; what is proved holds for all of these.
- FrameCache.CacheKeysEqualIff: timestamps are real numbers; numbers JavaScript prints with an exponent are not modelled.
- React state, pages and debouncing; annotation tasks and webhooks; the quality scorer and feature extractors; migrations, configuration and the reverse proxy.
