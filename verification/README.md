# Google Drive filesystem: verified model

The system is a DuckDB filesystem over Google Drive. Drive is not a filesystem: a
folder may hold any number of objects of one name, a file becomes visible only when
an upload completes, any reply may be lost after its request was carried out, and a
server may ignore a Range header. This project models the parts of the extension
that cope with that, against a Drive that does anything it is allowed to do, and
proves what they guarantee.

| file | what it models |
|---|---|
| `UploadPlan.dfy` | the one-chunk write buffer, the parser of a session's Range header, the per-chunk decision |
| `DriveServer.dfy` | the adversary: a set of files, a log of publications, one resumable session |
| `DriveClient.dfy` | request retry, whole-file upload under a reserved id, the loop that sends one chunk |
| `WriteHandle.dfy` | a write handle from open to close, cancel or destruction |
| `GlobSegment.dfy`, `GlobPath.dfy` | glob matching inside a segment and across segments, the split of a pattern |
| `Braces.dfy`, `BraceTrees.dfy` | brace expansion within a budget, and what brace patterns mean |
| `DriveTree.dfy`, `Naming.dfy` | the folder tree, what a path means in it, which objects a path names |
| `PathCache.dfy`, `Keys.dfy`, `Paths.dfy`, `QueryMetadata.dfy` | the path cache, its keys, its metadata half |
| `Resolve.dfy` | the cached walk of a path |
| `GlobListing.dfy`, `GlobMatches.dfy`, `GlobSearch.dfy`, `Globbing.dfy` | listing, cache filling and matching of a glob, one pattern and all expansions |
| `UniqueNames.dfy`, `Mutations.dfy` | writing, moving and removing by path |
| `BlockCache.dfy`, `RangedRead.dfy` | the shared block cache, and the two ways to read a byte range, one of them through it |
| `TokenPolicy.dfy`, `TokenSource.dfy` | when a token is fresh, and the threads that share one credential |

How the parts that are not the extension are modelled:

* Drive, the network and the token endpoint answer with arbitrary values, cut down to
  what they may legally answer (`DriveServer.Drive`, `DriveTree.DriveFolders`,
  `RangedRead.Remote`). A request is applied or not, and its reply arrives or not,
  independently.
* Threads are interleaved at the critical sections of the source. For the block cache
  and the metadata cache each method is one section and the class invariant holds
  between any two; for the token source there is also an explicit state machine, and
  the theorems are about every finite run of it.
* Whether an operation may fail is stated against a count of what went wrong outside:
  `DriveServer.Drive`, `DriveTree.DriveFolders` and `RangedRead.Remote` count the
  requests that failed, and every operation fails only if that count grew or for a reason
  it names. A refusal that the tree itself calls for is not counted.
* A history that the source does not keep (what was written, what was published, which
  tokens were rejected, how recently an entry was used) is a ghost field.

## What was found

* A chunk is not certain to be finished or given up. Every 308 that reports more than
  the last one clears the stall counter, so a session whose report goes up and down is
  obeyed for ever (`UploadPlan.WaveringIsObeyedForEver`). Nothing else keeps the loop
  going: a run whose report shrinks k times costs at most k + 1 times a bound linear in
  the chunk (`UploadPlan.RequestsPerShrink`), and a session whose report never shrinks
  at most that bound (`DriveClient.UploadChunk`).
* The error that says a change may have been applied is not given for every change
  that was. A create under a reserved id whose replies are all lost fails without it
  (`DriveClient.LostCreateIsUnflagged`), and so does a bare create or an overwrite that
  is applied and then answered with a server error
  (`DriveClient.AnsweredChangeIsUnflagged`). For all runs: a call that fails after the
  change says so if and only if it does not repeat its request and its last reply was
  lost (`DriveClient.ExecuteWithRetry`, `DriveClient.Upload`). The streamed path flags
  every such failure (`DriveClient.UploadChunk`).
* Closing an overwrite sends the name the handle was opened under, and so renames the
  object back if it was renamed by a move in between. That can put two objects of one
  name into a folder (`Mutations.GDriveFileSystem.OverwriteMoveClose`) and leave a cached
  path that no longer names its object (`Mutations.CloseAfterMoveIsStale`). It does no harm if and only if
  the object still has that name, or the name is free and awaited by no open create and
  nothing at or under the object is cached (`Mutations.RenamedIsSane`). The first holds
  as long as no move renames an object that is open for overwriting
  (`Mutations.MovedUndisturbed`).
* `Close` on a handle whose write has failed returns normally. It publishes nothing.
* A cached folder hides an ambiguity: beside a file of the same name, the path is
  ambiguous to an uncached walk (`Resolve.CachedFolderHidesAmbiguity`) and always
  resolves to the folder from the cache (`Resolve.ResolveHidden`). Nothing else
  distinguishes the two walks.
* Invalidating the empty path removes nothing below the root
  (`PathCache.RootInvalidationMissesAll`).
* `a/**` accepts the path `a` (`GlobSearch.PrefixItselfIsAccepted`), but a file of that
  name is not below the listed prefix and is not found (`GlobSearch.PrefixItselfIsMissed`).
  It is the only kind of match that is missed: a file whose path the pattern accepts is
  found if and only if the path has more segments than the literal prefix
  (`GlobSearch.AllAndOnlyIsExact`).
* A move onto an existing object whose deletion then fails leaves two objects of one
  name (`Mutations.BetweenIsNotUnique`), as the source's comment says it may.
* A metadata fetch that finds nothing erases its key even when a later query, or a
  call after an invalidation, has put an entry there since. That can cost a second
  fetch; it never serves anything older.
* Two files that a glob returns have different addresses, except where one lies at a path
  that spells the `id:` form of the other, which shares its own path with something
  (`Globbing.AddressesDiffer`).
* The check of the Range parser against the largest 64-bit number never fires: a
  numeral of at most 19 digits is always smaller (`UploadPlan.NumeralFitsInUint64`).

## Model

| member | source | states |
|---|---|---|
| `UploadPlan.NormalizeChunkSize` | src/gdrive_upload_plan.cpp:16-22 | the result is the largest positive multiple of 256 KiB up to 1 GiB not above the request, or the smallest one |
| `UploadPlan.ParseDigits` | src/gdrive_upload_plan.cpp:27-42 | reads the maximal digit run and its value, and fails exactly when no run of 1 to 19 digits ends where the digits end |
| `UploadPlan.NumeralFitsInUint64` | src/gdrive_upload_plan.cpp:26-32 | any numeral the parser accepts leaves room for one more in 64 bits |
| `UploadPlan.ParseDriveRangeNext` | src/gdrive_upload_plan.cpp:46-71 | succeeds exactly on the empty header and on `bytes=0-N`, with the number of bytes they say are held |
| `UploadPlan.RangeSaysOneThing` | src/gdrive_upload_plan.cpp:46-71 | no header text says two different things |
| `UploadPlan.RangeHeaderRoundTrip` | src/include/gdrive_upload_plan.hpp:37-40 | the header a session writes for the bytes it holds is read back as that number and as no other |
| `UploadPlan.ChunkedUploadBuffer.Fill` | src/gdrive_upload_plan.cpp:85-100 | appends a prefix of the data, takes nothing only when full or given nothing, leaves data over only when full, never holds more than a chunk |
| `UploadPlan.ChunkedUploadBuffer.MarkChunkSent` | src/gdrive_upload_plan.cpp:102-106 | moves the offset past the chunk and empties it; offsets stay multiples of 256 KiB |
| `UploadPlan.ChunkedUploadBuffer.ResumeSkip` | src/gdrive_upload_plan.cpp:115-121 | defined exactly when the reported byte lies in the chunk still in memory |
| `UploadPlan.NextUploadStep` | src/gdrive_upload_plan.cpp:123-187 | in-place decision: equals the decision function on what the reply means, for every reply |
| `UploadPlan.DecideMakesProgress` | src/gdrive_upload_plan.cpp:142-182 | while reported prefixes do not shrink, every step that goes on lowers (bytes left, failures left, stalls left) and uses up request allowance |
| `UploadPlan.EndsAsTold` | src/gdrive_upload_plan.cpp:123-187 | over any list of answers and told from the answers alone: a chunk goes on until the first one that ends it, and then it is done, accepted or given up, exactly on the grounds listed there |
| `UploadPlan.NextIsTold` | src/gdrive_upload_plan.cpp:123-187 | one more answer: the byte last reported, the reports in a row that moved nothing and the errors so far are what the state holds, and they decide the step and its pause |
| `UploadPlan.SendsOn` | src/gdrive_upload_plan.cpp:142-160 | while it goes on, the chunk is sent on from the byte last reported, after a report and at first, and the session is asked otherwise |
| `UploadPlan.RequestsPerShrink` | src/gdrive_upload_plan.cpp:142-182 | over any list of answers obeyed so far: if the report shrank k times, the requests are at most (k + 1) times the bound for one that never does |
| `UploadPlan.WaveringIsObeyedForEver` | src/gdrive_upload_plan.cpp:152-156 | for every n there is a list of 2n legal reports after each of which the loop sends again, and the stall counter does not grow |
| `UploadPlan.SuspicionIsExact` | src/gdrive_upload_plan.cpp:172-177 | the memory of a possible publication is set exactly when the chunk is final and some answer so far was lost or a server error |
| `UploadPlan.AmbiguityIsExact` | src/gdrive_upload_plan.cpp:123-187 | over any list of answers: the last step is flagged ambiguous exactly when it gives up a final chunk and one of the answers was lost or a server error |
| `DriveServer.RepeatIsOnce` | src/gdrive_client.cpp:717-728 | repeating a read, a reserved-id create, a session start or a delete has the effect of sending it once |
| `DriveServer.RepeatIsTwice` | src/gdrive_client.cpp:1183-1200 | repeating any other request can publish twice, which is why the gate exists |
| `DriveClient.ExecuteWithRetry` | src/gdrive_client.cpp:1140-1289 | at most six requests; at most one application when the gate holds or the request is safe to repeat; success means applied; a definite error of an unrepeated call means not applied; a failure after the change is flagged exactly when the call does not repeat and the last reply was lost; the response is the one the replies decide; told from the turns alone: every turn but the last called for another request, and a call that may repeat and fails with a lost, 5xx or 429 reply made all five attempts; there is one re-send, after the first 401 for which another token was had, and with that token; it fails only if something failed |
| `DriveClient.Attempt` | src/gdrive_client.cpp:1154-1289 | one turn of the loop with its branches in place: one request, and the verdict the reply and the refreshed token call for |
| `DriveClient.OneTurnMore` | src/gdrive_client.cpp:1140-1289 | a run of turns that the server may produce, extended by one, is again such a run, with the state or the response that follows |
| `DriveClient.TurnReturns` | src/gdrive_client.cpp:1154-1289 | a call that returns does so because it succeeded, failed for good, or had made five attempts, and reports just that |
| `DriveClient.TurnGoesOn` | src/gdrive_client.cpp:1154-1289 | a call goes on after a lost, 5xx or 429 reply if it may repeat, and after the first 401 with another token |
| `DriveClient.CallTurn` | src/gdrive_client.cpp:1140-1289 | both together, with what the turn did to the store |
| `DriveClient.TurnHonours` | src/gdrive_client.cpp:1154-1289 | each turn keeps the request applied at most once and, when it returns, makes the response true of the store |
| `DriveClient.LostCreateIsUnflagged` | src/gdrive_client.cpp:1177-1210 | a run in which a reserved-id create is applied, every reply is lost, and the error is not flagged |
| `DriveClient.AnsweredChangeIsUnflagged` | src/gdrive_client.cpp:1276-1288 | a run in which a bare create or an overwrite is applied, answered with 503, and the error is not flagged |
| `DriveClient.GenerateFileId` | src/gdrive_client.cpp:640-643 | reserves an id no file has, and changes nothing; repeated like any read |
| `DriveClient.Upload` | src/gdrive_client.cpp:645-733 | whatever is lost, at most one publication, under the reserved id if there is one; exactly one on success, a 409 after lost attempts included; a failure after the publication is flagged exactly when the last reply was lost and it was no create under a reserved id; after a 409 the answer is that of the read that looks for the file; it fails only if something failed |
| `DriveClient.StartResumableUpload` | src/gdrive_client.cpp:735-776 | publishes nothing; on success an empty session for that target is open; repeated up to five times, and failing only if something failed or the answer had no usable Location |
| `DriveServer.Drive.Session` | src/include/gdrive_upload_plan.hpp:14-23 | what the session demands of every request: data continues where it ends, a non-final chunk starts and ends on 256 KiB boundaries, the final one reaches the total, neither is empty; and all it may answer |
| `DriveClient.Exchange` | src/gdrive_client.cpp:794-815 | every request it sends meets those demands, and the round keeps the session a prefix of the stream; it sends the rest of the chunk or asks, as the step says |
| `DriveClient.ExchangeKeepsSending` | src/gdrive_client.cpp:794-815 | for every legal answer, the session holds what came before and a prefix of the chunk, and only a whole final chunk is ever published |
| `DriveClient.RoundOfKnowledge` | src/gdrive_client.cpp:815-836 | after every round the client knows where the session ends, or it stops, and an unheard publication is one it suspects |
| `DriveClient.UploadChunk` | src/gdrive_client.cpp:778-856 | ends within a request bound linear in the chunk; success means held (or published); a failure without the flag means not published; what is asked each time, when it ends and how are told from the answers alone: a chunk succeeds exactly at the answer that completes it, and fails exactly on the grounds of `EndsAsTold`, which takes a failure of the service |
| `WriteHandle.GDriveFileHandle.SendUploadChunk` | src/gdrive_upload.cpp:57-75 | sends the full chunk, opening the session first; on success the session holds all that arrived, and nothing is published either way; it fails only if something failed |
| `WriteHandle.GDriveFileHandle.Write` | src/gdrive_filesystem.cpp:972-1006 | the session always holds a prefix of all bytes written so far; a failed write dooms the handle; on a live handle it fails only if something failed |
| `WriteHandle.GDriveFileHandle.UploadHandleContents` | src/gdrive_upload.cpp:91-143 | publishes exactly the written bytes once when it succeeds, and at most once otherwise; an unflagged failure of a final chunk published nothing; it fails only if something failed, and creates without a reserved id only then |
| `WriteHandle.GDriveFileHandle.Close` | src/gdrive_file_handle.cpp:46-75 | a normal return of a live handle means the concatenation of all writes was published, once; a failed, cancelled or closed handle publishes nothing on any later Close; it throws only if something failed |
| `WriteHandle.GDriveFileHandle.CancelWrite` | src/gdrive_file_handle.cpp:33-44 | dooms a live handle, leaves any other as it was, and publishes nothing; an open session is cancelled |
| `WriteHandle.GDriveFileHandle.Destroy` | src/gdrive_file_handle.cpp:17-31 | changes no file, and cancels the session if one is open |
| `GlobSegment.ScanClass` | src/gdrive_glob.cpp:34-61 | one scan that tests as it goes agrees with collecting the members first: closed or not, where it ends, and whether the character is in it, whichever way the build orders bytes above 127 |
| `GlobSegment.TryMatchClass` | src/gdrive_glob.cpp:24-62 | the same with negation, against the token the class stands for |
| `GlobSegment.RunTakesItsLength` | src/gdrive_glob.cpp:77-131 | a run of tokens without a star consumes one character each wherever it matches |
| `GlobSegment.NewStar` | src/gdrive_glob.cpp:83-93 | forgetting all but the last star loses no match |
| `GlobSegment.Miss` | src/gdrive_glob.cpp:124-131 | on a miss the last star takes one more character, and without a star there is no match |
| `GlobSegment.MatchSegment` | src/gdrive_glob.cpp:71-138 | true exactly when the pattern matches token by token, under either order of bytes, within (name + 2) * (pattern + 2) turns of the outer loop; the scan of a class inside a turn is not counted |
| `GlobPath.MatchSegments` | src/gdrive_glob.cpp:160-182 | equals the unmemoised meaning of `**`; every filled cell holds the answer for its position and was computed once |
| `GlobPath.MatchPath` | src/gdrive_glob.cpp:190-196 | true exactly when the path's segments match the pattern's |
| `GlobPath.HasGlobMetacharacters` | src/gdrive_glob.cpp:198-205 | true exactly when one of the four characters occurs |
| `GlobPath.SplitGlob` | src/gdrive_glob.cpp:207-247 | splits at the first segment with a metacharacter, recursive exactly when more segments or a double star follow |
| `GlobPath.LiteralMatchesItself` | src/gdrive_glob.cpp:112-115 | a segment without metacharacters matches itself only |
| `GlobPath.SplitLosesNothing` | src/gdrive_glob.cpp:207-247 | every path the pattern accepts starts with the prefix's segments, and has exactly one more when the split is not recursive |
| `Paths.SplitOnSlash` | src/gdrive_glob.cpp:140-153 | yields the one list of slash-free segments that joins back to the text |
| `Paths.SplitIsUnique` | src/gdrive_glob.cpp:140-153 | a text splits in one way only |
| `Paths.PrefixInText` | src/gdrive_path_cache.cpp:272-279 | a path is below another in the tree exactly when its text extends the other's by a slash and more |
| `Braces.FindGroup` | src/gdrive_glob.cpp:297-316 | finds the first balanced top-level group; an opening brace never closed hides what follows |
| `Braces.SplitAlternatives` | src/gdrive_glob.cpp:335-348 | splits at the commas outside nested groups |
| `Braces.ExpandBracesInto` | src/gdrive_glob.cpp:292-371 | succeeds exactly when depth and pushes stay within what is left, then with the whole product and exactly that many pushes |
| `Braces.ExpandBraces` | src/gdrive_glob.cpp:375-387 | the whole product within the limits and nothing beyond them, with at most 1024 pushes in all |
| `BraceTrees.ProductOfPrint` | src/gdrive_glob.cpp:292-371 | expanding the printed form of a balanced tree gives every choice of alternatives, leftmost slowest |
| `BraceTrees.ExpandPrinted` | src/gdrive_glob.cpp:375-387 | expanding the printed form of a balanced tree returns what the tree denotes, or nothing, and nothing exactly when a limit is exceeded |
| `Keys.FieldsAreInjective` | src/gdrive_path_cache.cpp:40-54 | joined fields with equally many separators are equal only field by field |
| `Keys.FullKeyIsInjective` | src/gdrive_blockcache.cpp:61-65 | two blocks share a key only if file key, block size and index agree |
| `BlockCache.GDriveBlockCache.OneFetchPerKey` | src/gdrive_blockcache.cpp:72-91 | two fetches of one key are in flight together only if Clear or a zero capacity took an entry away |
| `BlockCache.GDriveBlockCache.Begin` | src/gdrive_blockcache.cpp:72-91 | joins the mapped fetch or inserts a new generation; nothing else changes |
| `BlockCache.GDriveBlockCache.Credit` | src/gdrive_blockcache.cpp:102-106 | the bytes go to the entry of its own generation, if that is still mapped, and to no other |
| `BlockCache.GDriveBlockCache.EvictLocked` | src/gdrive_blockcache.cpp:34-56 | ends at or below capacity or with nothing evictable, drops only completed entries, least recently used first, and none too many |
| `BlockCache.GDriveBlockCache.SetCapacity` | src/gdrive_blockcache.cpp:11-15 | the same, at the new capacity |
| `BlockCache.GDriveBlockCache.Clear` | src/gdrive_blockcache.cpp:22-26 | empties the cache and orphans what is in flight |
| `BlockCache.GDriveBlockCache.Account` | src/gdrive_blockcache.cpp:100-108 | accounts bytes to its own generation only, then evicts as above; what was fetched is remembered under its generation |
| `BlockCache.GDriveBlockCache.Erase` | src/gdrive_blockcache.cpp:114-121 | erases its own generation only |
| `BlockCache.GDriveBlockCache.Resolve` | src/gdrive_blockcache.cpp:109 | the future of a generation becomes ready with what that generation fetched, or its error, and only from here on may its entry be evicted |
| `BlockCache.SumWithout` | src/gdrive_blockcache.cpp:53 | the sum of the entries' bytes loses exactly the bytes of the entry removed |
| `BlockCache.AccountKeeps` | src/gdrive_blockcache.cpp:103-106 | accounting keeps cached bytes equal to that sum, whether or not the entry is still there |
| `BlockCache.EraseKeeps` | src/gdrive_blockcache.cpp:117-120 | erasing keeps it too, and never underflows |
| `RangedRead.BlockIsSound` | src/gdrive_filesystem.cpp:868-896 | a fetch that brought at least the block its full key names is sound for every block of the file, since no other block has that key |
| `RangedRead.FetchBlock` | src/gdrive_filesystem.cpp:870-896 | 206 or 200, what arrives is made to start at the block and reaches its end |
| `RangedRead.OthersStep` | src/gdrive_blockcache.cpp:58-128 | any other thread at any block of any file, Clear and changes of capacity: the cache stays valid, every fetch of this file sound, and the own fetch as it was |
| `RangedRead.RunToEnd` | src/gdrive_blockcache.cpp:124 | what a joined fetch delivers is what was fetched under its full key, whatever became of its entry since |
| `RangedRead.GetBlock` | src/gdrive_blockcache.cpp:58-128 | joins or fetches; with other threads at work at every point, what is returned is what one fetch under this full key brought, at least the block, also after Clear and a newer generation; it fails only after a failed request or beyond the file |
| `RangedRead.ReadViaBlockCache` | src/gdrive_filesystem.cpp:857-911 | the buffer is the plain slice of the file, through any joins, evictions and refetches, and it fails only beyond the file or after a failed request |
| `RangedRead.ReadExactRangeTail` | src/gdrive_filesystem.cpp:918-948 | copies the response's bytes from the offset on, or copies nothing and fails, exactly when there are too few |
| `RangedRead.ReadAt` | src/gdrive_filesystem.cpp:762-846 | a positional read, by blocks or by one exact request when there are no blocks or the file is empty: the slice of the file, and failure only beyond the file or after a failed request |
| `RangedRead.ExactTailIsTheSlice` | src/gdrive_filesystem.cpp:918-948 | for an honest 206 or 200 those bytes are the same slice, and there are enough exactly when the range lies in the file |
| `RangedRead.ReadHandle.Read` | src/gdrive_filesystem.cpp:952-964 | a sequential read returns the bytes between the old and the new cursor and stops at the end of the file, an empty one included |
| `PathCache.ToStringIsInjective` | src/gdrive_path_cache.cpp:40-54 | keys built from identities with equally many separators collide only if all four parts are equal |
| `PathCache.HitMeans` | src/gdrive_path_cache.cpp:264-284 | the invalidation test hits the identity's own path and text below it, and no other identity's |
| `PathCache.InvalidationIsExact` | src/gdrive_path_cache.cpp:264-284 | for paths of segments: exactly the identity's entries at the path or below it |
| `PathCache.RootInvalidationMissesAll` | src/gdrive_path_cache.cpp:272-279 | with the empty path it hits nothing below the root |
| `PathCache.OldestIsLast` | src/gdrive_path_cache.cpp:72-80 | the entry with the smallest use time is the last of the recency list |
| `PathCache.GDrivePathCache.EvictOldest` | src/gdrive_path_cache.cpp:72-80 | one round of eviction drops the last of the recency list |
| `PathCache.GDrivePathCache.EvictPathsLocked` | src/gdrive_path_cache.cpp:67-82 | truncates the recency list to the maximum; zero means unbounded |
| `PathCache.GDrivePathCache.SetMaxEntries` | src/gdrive_path_cache.cpp:56-60 | the same, at the new maximum |
| `PathCache.GDrivePathCache.TryGet` | src/gdrive_path_cache.cpp:84-120 | returns what is stored and moves it to the front, or changes nothing |
| `PathCache.GDrivePathCache.Put` | src/gdrive_path_cache.cpp:122-129 | stores at the front and drops from the back what no longer fits |
| `PathCache.GDrivePathCache.InvalidatePrefix` | src/gdrive_path_cache.cpp:240-284 | removes exactly the entries the test hits and keeps the order of the others |
| `QueryMetadata.QueryCache.BeginQuery` | src/gdrive_path_cache.cpp:153-164 | drops everything cached for another query |
| `QueryMetadata.QueryCache.GetOrStart` | src/gdrive_path_cache.cpp:174-203 | a fetch is started only if none is cached, and what is shared was asked for after this thread's query began and after every invalidation that covers the key |
| `QueryMetadata.QueryCache.Forget` | src/gdrive_path_cache.cpp:205-230 | a fetch that finds nothing or fails leaves no entry under its key |
| `QueryMetadata.QueryCache.InvalidateIdentity` | src/gdrive_path_cache.cpp:240-262 | drops exactly the entries under the identity's prefix; from then on no fetch begun before is shared under it |
| `QueryMetadata.PrefixIsIdentity` | src/gdrive_path_cache.cpp:134-147 | the prefix test hits the metadata of its own identity, of every file, and of no other identity |
| `DriveTree.FolderPick` | src/gdrive_filesystem.cpp:145-169 | filtering a name's listing by kind turns an ambiguity into the one folder, or a file into nothing, and changes nothing else |
| `DriveTree.ListingPicks` | src/gdrive_filesystem.cpp:306-313 | the number of matches listed decides what the name means |
| `Naming.NamedIsFoundOrAmbiguous` | src/gdrive_filesystem.cpp:281-324 | walking the path of an object finds that object or calls the path ambiguous: never another object, never nothing |
| `Naming.FoundIsNamed` | src/gdrive_filesystem.cpp:281-324 | what a walk finds bears the names of the path |
| `Naming.FoundIffAlone` | src/gdrive_filesystem.cpp:281-324 | walking the path of an object finds it if and only if no folder beside a folder on the way, and nothing beside the object, has the same name |
| `Resolve.ResolveSegment` | src/gdrive_filesystem.cpp:288-316 | one segment: a cached entry is returned as it is, and only without one a listing decides, keeping the cache coherent; what is found is cached |
| `Resolve.ListSegment` | src/gdrive_filesystem.cpp:294-316 | one listing: none, one or several matches decide, and the one match is cached |
| `Resolve.NextStep` | src/gdrive_filesystem.cpp:294-316 | a cached file in mid-path ends the walk as the folders-only walk ends before it |
| `Resolve.AddedCoherent` | src/gdrive_filesystem.cpp:315 | storing what a walk found keeps every entry what its walk finds |
| `Resolve.TryResolvePath` | src/gdrive_filesystem.cpp:241-341 | on any tree the cache stays coherent; if the entry of the path is still cached at the last segment the answer is that entry, and otherwise the uncached walk's; it is still there when all segments were cached or the cache had room; what is found is cached, and it fails exactly when a request failed |
| `Resolve.WalkSegment` | src/gdrive_filesystem.cpp:281-324 | one turn of that walk: it goes on right, or it stops with the walk's own answer, and knows whether the entry of the path was hit |
| `Resolve.LastStep` | src/gdrive_filesystem.cpp:288-316 | the answer at the last segment is the cached entry or the listing's, and which of them |
| `Resolve.CachedFolderHidesAmbiguity` | src/gdrive_filesystem.cpp:291-312 | a coherent cache that holds a folder beside a file of the same name, and an uncached walk that is ambiguous |
| `Resolve.ResolveHidden` | src/gdrive_filesystem.cpp:288-316 | in that state every run of the walk answers with the folder |
| `GlobListing.ReachableIsFounded` | src/gdrive_filesystem.cpp:1297-1309 | the recursive listing of a tree hung from its root ends: such a tree has heights |
| `GlobListing.ListFolder` | src/gdrive_filesystem.cpp:1297-1309 | lists exactly the objects below the folder, at the depth asked for, under their relative paths; each once, failing exactly when a request failed |
| `GlobListing.OnceMore` | src/gdrive_filesystem.cpp:1297-1309 | what lies under one child is listed under no other |
| `GlobMatches.UnderAmbiguous` | src/gdrive_filesystem.cpp:1355-1363 | true exactly when the path lies below one listed more than once |
| `GlobMatches.ClearIsFound` | src/gdrive_filesystem.cpp:1325-1376 | an entry whose path and whose folders are each listed once is what the walk finds |
| `GlobMatches.CacheListing` | src/gdrive_filesystem.cpp:1324-1376 | for any duplicate names at any depth, filling the cache keeps it coherent; with room, exactly the entries listed once under folders listed once are added |
| `GlobMatches.MatchListing` | src/gdrive_filesystem.cpp:1378-1412 | the hits are exactly the listed files whose path the pattern matches, each marked when its path is listed again |
| `GlobMatches.RepeatedIsShared` | src/gdrive_filesystem.cpp:1396-1406 | a path is listed again exactly when it names another object too |
| `GlobSearch.GlobOne` | src/gdrive_filesystem.cpp:1277-1412 | a file whose path the pattern accepts is a hit if and only if the path has more segments than the literal prefix, nothing else is a hit, and the cache stays coherent; a hit is marked exactly when its path names another object too; it fails only if a request failed or the prefix is ambiguous or has a dot for a name; without a limit, every hit whose path nothing shares is cached |
| `GlobSearch.AllAndOnlyIsExact` | src/gdrive_filesystem.cpp:1277-1412 | finding all below the prefix and only that is finding exactly the accepted files with longer paths |
| `Globbing.ResolveLiteral` | src/gdrive_filesystem.cpp:1270-1275 | a path without metacharacters is a result exactly when the uncached walk ends at a file; it fails only if a request failed or the path is ambiguous |
| `Globbing.OneExpansion` | src/gdrive_filesystem.cpp:1264-1412 | of the files whose paths the expansion accepts it returns exactly those with more segments than the literal prefix, and nothing else; each under its address: the path, or the id where the path names another object too |
| `Globbing.HitIsAddressed` | src/gdrive_filesystem.cpp:377-383 | a file alone at its path is addressed by the path and any other by its id |
| `Globbing.AddressesDiffer` | src/gdrive_filesystem.cpp:377-383 | two files have the same address if and only if one is addressed by its id and the other lies at a path that spells it |
| `Globbing.OnceEach` | src/gdrive_filesystem.cpp:1416-1425 | keeps every address and none twice |
| `Globbing.Glob` | src/gdrive_filesystem.cpp:1186-1439 | the union of what the expansions return, each exactly as above, no address twice, or the pattern itself when nothing matched and it names a file; it fails only if a request failed, the pattern has a dot for a name or is too large, or it or an expansion is ambiguous |
| `GlobSearch.HitAddressesItself` | src/gdrive_filesystem.cpp:1398-1411 | the path of a hit resolves to the hit if and only if no same-named sibling stands on the way, and is called ambiguous otherwise |
| `GlobSearch.PrefixItselfIsAccepted` | src/gdrive_filesystem.cpp:1297-1309 | `a/**` accepts the path of its own literal prefix |
| `GlobSearch.PrefixItselfIsMissed` | src/gdrive_filesystem.cpp:1297-1309 | a file at `a` is not among the hits of `a/**`, in any tree |
| `Globbing.PrefixIsNotReturned` | src/gdrive_filesystem.cpp:1398-1425 | neither the path nor the id of a file at the literal prefix is among the returned addresses |
| `UniqueNames.WalkIsNaming` | src/gdrive_filesystem.cpp:281-324 | with unique sibling names, a walk finds exactly what the path names |
| `UniqueNames.AllNamedIsCoherent` | src/gdrive_filesystem.cpp:281-324 | there, a coherent cache is one whose entries are the objects their paths name |
| `UniqueNames.AddedIsUnique` | src/gdrive_filesystem.cpp:508-520 | creating in a free slot keeps names unique, and the new folder is empty |
| `UniqueNames.MovedIsUnique` | src/gdrive_mutate.cpp:151-178 | a move keeps names unique exactly when nothing else sits in the new place |
| `UniqueNames.ReplacedIsUnique` | src/gdrive_mutate.cpp:151-209 | a move followed by deleting what was there keeps them unique |
| `UniqueNames.RenamedIsUnique` | src/gdrive_client.cpp:664 | giving an object another name keeps names unique if and only if the name is free beside it |
| `UniqueNames.RenamedAllNamed` | src/gdrive_client.cpp:664 | it keeps every cached path right if and only if nothing at or under the object is cached |
| `UniqueNames.DeletedAllNamed` | src/gdrive_mutate.cpp:259-275 | deleting an object and dropping the entries at or below its path leaves every entry right |
| `Mutations.GDriveFileSystem.LookUpFolder` | src/gdrive_filesystem.cpp:433-506 | finds the folder of that name, or proves nothing of that name is there, dropping a cached file on the way; it refuses only if a request failed or a file is there |
| `Mutations.GDriveFileSystem.ProbeAnyKind` | src/gdrive_filesystem.cpp:467-506 | a file of that name refuses; a folder is adopted; otherwise the slot is free |
| `Mutations.GDriveFileSystem.OpenForWriting` | src/gdrive_filesystem.cpp:400-555 | creates nothing but missing folders on the path, keeps names unique and the cache right even when it fails, and knows what it will overwrite; it fails only if a request failed, the path is empty, or a file stands where a folder is needed |
| `Mutations.GDriveFileSystem.WalkToParent` | src/gdrive_filesystem.cpp:418-521 | the walk to the parent creates missing folders only, and ends at the folder the path names |
| `Mutations.GDriveFileSystem.WalkOne` | src/gdrive_filesystem.cpp:429-521 | one segment of that walk, with the text of the path so far as its cache key |
| `Mutations.GDriveFileSystem.ProbeTarget` | src/gdrive_filesystem.cpp:523-542 | what will be overwritten is what the path names, and nothing when the parent has just been created, where it cannot fail since nothing is asked |
| `Mutations.GDriveFileSystem.CloseWrite` | src/gdrive_upload.cpp:91-143 | answered or not, at most the awaited file appears, or the overwritten object gets the handle's name again; if that changes its name, the invariant survives exactly when the new name is harmless; if the object still has it, always; it fails only if the request failed or the folder is gone |
| `Mutations.RenamedIsSane` | src/gdrive_upload.cpp:127 | the rename keeps the whole invariant if and only if it is harmless: the name it has, or a free and unawaited one with nothing cached under the object |
| `Mutations.CloseAfterMove` | src/gdrive_upload.cpp:127 | with an `x` in `b`, giving the object at `b/y` the name `x` again leaves two objects of one name |
| `Mutations.GDriveFileSystem.OverwriteMoveClose` | src/gdrive_upload.cpp:91-143 | the run itself through the three calls: open `x` for overwriting, move it to `b/y` beside another `x`, close; whenever all three return, `b` holds two objects of one name |
| `Mutations.XIsSane` | src/gdrive_upload.cpp:91-143 | the whole invariant holds of the tree that run starts from |
| `Mutations.OpenX` | src/gdrive_filesystem.cpp:400-555 | opening `x` there makes nothing and will overwrite that very object |
| `Mutations.MoveX` | src/gdrive_mutate.cpp:106-233 | the only tree a returned move of `x` to `b/y` can leave |
| `Mutations.CloseAfterMoveIsStale` | src/gdrive_upload.cpp:127 | without the other `x`, the cached `b/y` no longer names its object |
| `Mutations.GDriveFileSystem.MoveFile` | src/gdrive_mutate.cpp:106-233 | on return the target names the moved object, what was under it is under the target, what was replaced is gone, all other paths hold, and the cache is right; whether it returns or throws, nothing is deleted before the moved object is in place; the open overwrites keep their names exactly when those of the moved object were opened under the name it gets; it fails only if a request failed, the source or the target is the root or the source names nothing, the target's parent is no folder, or the target lies under the source |
| `Mutations.GDriveFileSystem.ResolveEnds` | src/gdrive_mutate.cpp:119-136 | finds the object, its parent and the folder it goes to, or a reason why there is no such move |
| `Mutations.GDriveFileSystem.MoveAndReplace` | src/gdrive_mutate.cpp:175-233 | the move, the deletion of what was there, and both invalidations |
| `Mutations.MoveRefused` | src/gdrive_mutate.cpp:175-178 | Drive refuses a planned move only for one of those reasons |
| `Mutations.GDriveFileSystem.RemoveFile` | src/gdrive_mutate.cpp:88-104 | on return exactly the file the path named is gone; it fails only if a request failed or the path names no file |
| `Mutations.GDriveFileSystem.RemoveDirectory` | src/gdrive_mutate.cpp:259-275 | on return exactly the folder and what lies under it are gone; it fails only if a request failed or the path is the root or names no folder |
| `Mutations.GDriveFileSystem.ResolveParentId` | src/gdrive_mutate.cpp:44-56 | names the parent of the path; or nothing is there, or a request failed |
| `Mutations.MovedIsSane` | src/gdrive_mutate.cpp:151-233 | move, replacement and the two invalidations together keep the whole invariant |
| `Mutations.MovedNames` | src/gdrive_mutate.cpp:175-209 | where every path leads after a move |
| `Mutations.MovedUndisturbed` | src/gdrive_mutate.cpp:151-178 | after a move every open overwrite is still in place if and only if those of the moved object were opened under the name it now has |
| `Mutations.BetweenIsNotUnique` | src/gdrive_mutate.cpp:180-209 | between the move and the deletion two objects share a name |
| `TokenPolicy.FreshWhenMinted` | src/gdrive_token_policy.cpp:18-34 | a token just minted is fresh under no cap or one above the slack, and under no smaller one |
| `TokenPolicy.FreshIsGoodForSlack` | src/gdrive_token_policy.cpp:18-26 | fresh means neither over its expiry nor over its age at any moment of the next 60 seconds |
| `TokenPolicy.NormalizeMaxAgeSeconds` | src/gdrive_token_policy.cpp:28-34 | rejects negative settings and raises small ones to one that a new token survives |
| `TokenPolicy.StaleStays` | src/gdrive_token_policy.cpp:18-26 | a token never becomes fresh again |
| `TokenSource.StepKeepsInv` | src/gdrive_auth.cpp:248-350 | every critical section of every thread keeps the invariant of the shared state |
| `TokenSource.MintsOnlyWhenNeeded` | src/gdrive_auth.cpp:266-307 | in every run, one thread mints at a time, and only while no fresh token other than the rejected one is cached |
| `TokenSource.MintsAreBounded` | src/gdrive_auth.cpp:266-350 | in every run, successful mints are at most one (none for a pasted token) plus the tokens rejected or gone stale |
| `TokenSource.BacksOffExactly` | src/gdrive_auth.cpp:326-345 | a mint starts exactly when none failed in the last 30 seconds |
| `TokenSource.HandedOut` | src/gdrive_auth.cpp:248-350 | in every run, what a call comes back with: the cached token, fresh for it and not the rejected one; the token just minted for it, which is then cached; where nothing can be minted, whatever is cached or nothing; an error only within 30 seconds of a failed mint; and it comes back whenever the cache has something for it |
| `TokenSource.OnlyMintersGoOn` | src/gdrive_auth.cpp:271-306 | in every run, only a source that can mint sends a call on to a mint |
| `TokenSource.TokenStore.TryFresh` | src/gdrive_auth.cpp:266-278 | a fresh cached token, or what there is if none can be minted, or on to the mint lock |
| `TokenSource.TokenStore.Reject` | src/gdrive_auth.cpp:287-288 | a rejected token sends its thread to the mint lock and is recorded as rejected |
| `TokenSource.TokenStore.LockMint` | src/gdrive_auth.cpp:280 | takes the lock exactly when nobody has it; then no other thread holds it |
| `TokenSource.TokenStore.LookAgain` | src/gdrive_auth.cpp:281-283 | a thread that waited takes the token minted meanwhile |
| `TokenSource.TokenStore.LookAgainAfterRejection` | src/gdrive_auth.cpp:287-306 | another thread's token, nothing, or a mint, as the policy decides |
| `TokenSource.TokenStore.MayMint` | src/gdrive_auth.cpp:326-336 | gives a recent failure out again, or forgets an old one |
| `TokenSource.TokenStore.RecordFailure` | src/gdrive_auth.cpp:342-344 | a failed mint is remembered for 30 seconds, and the cached entry stays |
| `TokenSource.TokenStore.MintReturned` | src/gdrive_auth.cpp:346 | age is measured from when the mint returned |
| `TokenSource.TokenStore.StoreMinted` | src/gdrive_auth.cpp:346-349 | a successful mint overwrites the entry |

## Left out

- HTTP, TLS, connections, sleeping and jitter, tracing and statistics: only which replies arrive, and how many requests are sent.
- Token endpoints, JWT signing, key files, and the browser flow, which also writes the token cache outside the mint lock: the token source is modelled for minting providers only.
- JSON: listings and metadata are given values. The pages of one listing are taken together.
- Error classification and wording: an error has a kind, a status and whether it may be retried.
- The order of a glob's results, which follows the order of Drive's listings.
- DuckDB plumbing, secrets, settings, native-format export, URI and percent encoding.
- `DriveSessionPath` and the text of Content-Range: a session request carries its offset, data and total as numbers; sessions on another host are refused before anything is sent.
- Offsets and sizes are unbounded integers: a file near 2^64 bytes is not modelled. Times are 64-bit where the source saturates.
- One write handle at a time uses a modelled Drive, which holds one resumable session.
- Requests that a server carries out after their reply was given up are not modelled, nor are other clients that write to the same tree; block reads assume the file does not change.
- `TryRecoverStaleHandle` and the re-resolution of a dead id at open: they need another client.
- The freshness mark of path entries (`fresh_in_query`), which only decides whether open repeats a files.get.
- A glob pattern with an empty segment, or one that is or expands to the `id:` form.
- `MutateCreateDirectory`, which creates without looking; the key it invalidates holds a whole `gdrive://` address and matches no entry.
- Mutations addressed by `id:`, which do not know which path entries to drop.
- Mutations.GDriveFileSystem.MoveFile: Drive is taken to refuse moving a folder under itself; a move or deletion that throws after it may have been applied is not claimed to leave the cache right.
- Mutations.GDriveFileSystem.RemoveDirectory: deleting the configured root itself is taken to be refused.
- Mutations.GDriveFileSystem.OpenForWriting: no open write waits for the same path or for a folder on it.
- Mutations.GDriveFileSystem.CloseWrite: only names and places; what is published, and when, is the write handle's part. When its rename does harm, nothing is promised of the invariant afterwards.
- RangedRead.GetBlock: a thread that waits for a fetch is taken to be woken in the end; a failed download counts when its thread acts on it.
- TokenSource.MintsAreBounded: mints are taken to return tokens not seen before, and the clock does not go back.
