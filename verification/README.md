# Tag index, purge, record and scan of ngx_xkey

A Dafny model of the part of `ngx_xkey` that decides which cache files a purge removes.
`dafny verify dfyconfig.toml` checks all of it.

Responses carry tags in a header. Recording notes each cached response's key under its tags in a
shared-memory index; a purge takes a tag's keys out of the index and invalidates and unlinks each
entry; a tag the index does not hold is answered by walking the cache directory and reading every
file's stored header block. The index is bounded: when the slab refuses memory it evicts its least
recently used tags.

The model has four layers.

- **The index.** `TagIndexHeap` is the index as it lies in memory: a map, an intrusive circular list
  threaded through the map's entries, four counters, and a slab that may refuse any request. Every
  method is proved to compute the operation of the same name on a plain value (`IndexModel`: rows, most
  recently used first). What one insert call does is then stated without its loop (`InsertShape`), and
  what the index holds after any run is read off the run's history alone (`IndexHistory`, `IndexRuns`).
  `Eviction` says, in terms of the state before the call, when an insert evicts or fails the very tag it names,
  and `InsertCases` what an insert does in each case, in plain numbers.
- **The bytes.** `Hex`, `Decimal`, `Tags` and `Headers` model the parsers and formatters, `NodeKey` the
  order of NGINX's cache tree.
- **The cache.** `CacheZone` models the search for a cache node and its invalidation, with the zone's
  size; `Scanning` the directory and a whole scan; `Recording` the header filter; `Purging` the handler.
- **The protocol.** `Protocol` interleaves recording, committing, purging, scanning, NGINX's own
  dropping of files, and restarts, one lock or one file operation at a time. Each file carries, as
  bookkeeping, the tags it has lost: those under which no purge would find it. `Misses` says exactly what a
  purge running alone leaves, and holds runs that show why no counter may be ignored. `Simulation` shows
  that every step, and a whole purge request, is what the file-level model above does.

## Where the code and its comments differ

- `src/index.rs:11-12` and `src/scan.rs:8-10` say that losing an index entry costs a scan, never a wrong
  answer. That holds of a tag that is absent. A tag that is present but incomplete is answered from its
  partial list and nothing is scanned (`src/purge.rs:82-97`). `Purging.IndexAnswerExact` and
  `Purging.PurgeCompleteIff` give the exact condition, and `Misses` five ways to break it: evicted and
  recorded again, an insert refused, a tag past its cap, served after a restart, purged between recording
  and commit.
- `src/record.rs:4-6` calls recording before the commit harmless for aborted transfers. A purge that runs
  in that gap removes the tag's list before the file exists, so the file is missed later:
  `Misses.PurgedInFlight`. In `Protocol` such a file has lost the tag, until its key is listed again.
- `src/record.rs:78-79` says a tag that was refused is later answered by a scan. That is so exactly if the tag
  was not held, or at most 64 tags were; else the tag goes on answering without the key:
  `Eviction.FailedInsertScansIff`, `Eviction.HeldTagMissesKeyIff`.
- `src/index.rs:86-88` says touching puts a tag out of reach of the call's evictions. It does not when at
  most 64 tags are held: `Eviction.HeldTagEvictedIff` says exactly when a tag is evicted by its own insert,
  and `Eviction.GrownTagEvictsItself` gives two calls that do it.
- `trim` takes form feeds off a stored value, `split_tags` does not separate at them, so a value with a
  form feed at an end is recorded under tags no scan finds: `Headers.TrimKeepsTagsIff`.
- The last `false` of `evict` cannot be reached: `TagIndexHeap.TagIndex.Evict` answers false only on an
  empty ring.
- The repository's README says 404 means that the tag is not in the index. It is returned when falling
  back is off, or when a scan purged nothing; a tag that is held answers 204 even if it purged nothing.

## Model

| member | source | states |
|---|---|---|
| TagIndexHeap.Slab.AskForEntry | src/index.rs:144-158 | the four allocations of a new entry, asked in order and stopping at the first refusal |
| TagIndexHeap.Entry.TryReserve | src/index.rs:131 | memory is asked for only when the key list has no spare capacity |
| TagIndexHeap.Entry.Extend | src/index.rs:122-134 | the list after an append, counting lost and added keys; a refusal leaves the list as it was, because a list that just lost a key never asks |
| TagIndexHeap.QueueRemove | src/index.rs:178 | unsplicing an element leaves a well-formed circle of all others in their order |
| TagIndexHeap.QueueInsertAfter | src/index.rs:179 | splicing in an unlinked element makes it the first of the circle |
| TagIndexHeap.QueueToFront | src/index.rs:176-181 | the two together move an element to the front and keep the order of the rest |
| TagIndexHeap.WalksAgree | src/index.rs:59-61 | walking backwards from the head meets the reverse of what walking forwards meets, and both come back to the head |
| TagIndexHeap.EntryOf | src/index.rs:49-53 | a tag is a map key exactly when a ring entry holds it as its own copy, and the map leads to that entry |
| TagIndexHeap.TagIndex.constructor | src/index.rs:240-257 | an empty index whose queue head points at itself |
| TagIndexHeap.TagIndex.Touch | src/index.rs:176-181 | a held entry moves to the front of the LRU, all others keeping their order |
| TagIndexHeap.TagIndex.Mention | src/index.rs:89-92 | a held tag is touched, an absent one is not, and nothing else changes |
| TagIndexHeap.TagIndex.Coldest | src/index.rs:184-201 | the entry before the head is the last of the LRU, and the stack copy of its tag is the whole tag |
| TagIndexHeap.TagIndex.Evict | src/index.rs:184-214 | drops exactly the least recently used tag with its keys and counts; false exactly on an empty ring |
| TagIndexHeap.TagIndex.Take | src/index.rs:217-227 | hands out the tag's keys and removes the tag from map, ring and counters; an absent tag changes nothing |
| TagIndexHeap.TagIndex.Append | src/index.rs:117-140 | computes the append of the value model, including a refused allocation and an absent tag |
| TagIndexHeap.TagIndex.Create | src/index.rs:143-169 | computes the creation of the value model; a refusal at any of the four requests changes nothing |
| TagIndexHeap.TagIndex.Round | src/index.rs:95-110 | one attempt and one eviction lead to the same end as the attempts they stand for |
| TagIndexHeap.TagIndex.Insert | src/index.rs:74-114 | the whole heap state, result and slab use are those of the value model's insert, whatever the slab refuses |
| IndexModel.AppendKeepsWellFormed | src/index.rs:117-140 | appending keeps lists duplicate-free, non-empty, capped and within capacity, and the counters exact; a failed append changes nothing |
| IndexModel.InsertKeepsWellFormed | src/index.rs:74-114 | so does every insert: one entry per tag, `tags` the number of entries, `keys` the sum of the list lengths |
| IndexModel.TakeKeepsWellFormed | src/index.rs:217-227 | and every take, with no subtraction underflowing |
| IndexModel.EvictKeepsWellFormed | src/index.rs:206-210 | and every eviction |
| InsertShape.AttemptsShape | src/index.rs:94-113 | the retry loop evicts exactly a suffix of the rows and either records at the front or fails with an empty index or all attempts spent |
| InsertShape.InsertHasShape | src/index.rs:86-113 | one insert evicts exactly the coldest `k <= 64` rows of the touched order; all other tags keep their keys and relative order |
| InsertShape.InsertOutcome | src/index.rs:82-113 | `Ok` exactly when the key is in the list of the foremost tag; `Err` means a bad tag and no change, an empty index, or exactly 64 evictions |
| InsertShape.HeldTagGoesLast | src/index.rs:86-111 | a held tag is evicted only after every other; surviving, it is foremost with the key recorded or, on failure, its old list; evicted in a call that succeeds, it holds the new key alone |
| Eviction.HeldTagEvictedIff | src/index.rs:86-111 | a held tag is evicted by its own insert exactly when its list must ask for memory to take the key, at most 64 tags are held, and the slab refuses once for each of them; the call then succeeds exactly if an attempt is left and all four parts of a new entry are granted |
| Eviction.LoneTagEvictsItself | src/index.rs:86-111 | a tag alone, its list full to capacity and refused once, ends holding the new key alone |
| Eviction.GrownTagEvictsItself | src/index.rs:86-88 | two calls from empty that reach and do that |
| Eviction.FailedInsertScansIff | src/record.rs:78-79 | after a failed insert the tag does not list the key, and a purge of it scans exactly if the tag was not held or at most 64 tags were |
| Eviction.HeldTagMissesKeyIff | src/record.rs:78-79 | an insert leaves a held tag answering without the key exactly when more than 64 tags are held, its list must ask for memory, and all 64 attempts are refused |
| InsertShape.QuietInsert | src/index.rs:74-140 | an insert that fails, evicts and drops nothing adds the key to its tag's list if missing and changes no other list |
| InsertCases.BadLengthChangesNothing | src/index.rs:82-84 | a tag of 0 or of more than 1024 bytes is refused, with index and slab untouched |
| InsertCases.NewTagIsCreated | src/index.rs:143-169 | a tag of 1 to 1024 bytes that is not held, its four parts granted, is created in front and lists the key |
| InsertCases.EntryGrantedIff | src/index.rs:144-158 | a new entry is granted exactly if all four of its parts are, and the first refusal ends the asking |
| InsertCases.HeldListTakesKey | src/index.rs:117-140 | a held list keeps a key it has, shifts by its oldest at 65536 keys without asking for memory, and else grows by the key, asking only at capacity |
| InsertCases.AllRefusedGivesUp | src/index.rs:94-113 | against a slab that refuses everything, an insert that needs memory asks and evicts until nothing is left, or 64 times, and fails |
| IndexHistory.MentionTracks | src/index.rs:89-92 | touching keeps the ring ordered by the last insert call naming each tag |
| IndexHistory.PushFullTracks | src/index.rs:127-137 | a full list loses its oldest key, which is logged as dropped, and stays the newest 65536 keys added |
| IndexHistory.EvictTracks | src/index.rs:184-214 | the tag evicted was named before every other tag held, and totals still balance |
| IndexHistory.TakeTracks | src/index.rs:217-227 | what a take hands out is the newest keys added since the tag's creation |
| IndexRuns.InsertTracks | src/index.rs:74-114 | a whole insert keeps the index and its history in agreement |
| IndexRuns.EveryRunTracks | src/index.rs:57-228 | after any calls under any refusals: each list is the newest 65536 keys added since the tag's creation, the ring is strictly ordered by last use, evictions were of the coldest tag, tags created = held + evicted + taken, keys added = held + dropped + lost with lists |
| IndexRuns.NamesAreLogged | src/index.rs:82-92 | the history names exactly the acceptable tags of the insert calls, in call order |
| Hex.HexEncode | xkey-core/src/lib.rs:57-71 | writes two lowercase digits a byte and leaves the rest of the buffer alone; refuses a short buffer untouched |
| Hex.HexDecode | xkey-core/src/lib.rs:94-108 | succeeds exactly on hex, in either case, of twice the buffer's length, and then holds its value |
| Hex.DecodeEncoded | xkey-core/src/lib.rs:57-117 | decoding an encoding gives the bytes back |
| Hex.EncodeDecoded | xkey-core/src/lib.rs:57-117 | encoding a decoding gives the lowercase of the input |
| Hex.HexOfAt | xkey-core/src/lib.rs:57-71 | each byte is written as its high digit and then its low one, "0" to "9" and "a" to "f" |
| Hex.DecodesIff | xkey-core/src/lib.rs:94-117 | exactly an even number of characters "0" to "9", "a" to "f" and "A" to "F" decodes |
| Hex.HasKeyIff | src/scan.rs:149-164 | a path has a key exactly if it is at least 32 characters long and the last 32 are hex digits |
| Hex.KeyFromPath | src/scan.rs:149-164 | the key spelt by the last 32 characters, in either case, or nothing if the path is shorter or they are not hex |
| Hex.DottedNameHasNoKey | src/scan.rs:157-160 | the dot test for temporary files never changes the answer: the dot lies where a hex digit must |
| Hex.PathNamesKey | src/scan.rs:144-164 | a path names a key exactly when it ends in the key's hex, in either case |
| Hex.KeyOfOwnPath | src/purge.rs:292-309 | the path built for a key names that key, whatever its directory |
| Decimal.FormatUsize | xkey-core/src/lib.rs:76-87 | for every 64-bit number the index stays within 20 digits, and the digits read back as the number with no leading zero except for 0 |
| Decimal.ReadsInTens | xkey-core/src/lib.rs:79-81 | the digits are read in base ten |
| Tags.SplitTagsAt | xkey-core/src/lib.rs:29-33 | splitting around a separator is splitting both sides |
| Tags.SplitOfWeave | xkey-core/src/lib.rs:23-33 | tags joined by any non-empty separator runs, padded or not, are split back into those tags |
| Tags.WeaveOfSplit | xkey-core/src/lib.rs:23-33 | every value is its tags woven with separator runs, so nothing is lost or invented |
| Tags.SplitIsExact | xkey-core/src/lib.rs:23-33 | the tags are exactly the maximal separator-free runs, in order |
| Tags.TheseSeparate | xkey-core/src/lib.rs:31 | bytes 9, 10, 13, 32 and 44 each separate |
| Tags.NothingElseSeparates | xkey-core/src/lib.rs:31-32 | a non-empty value without them is one tag |
| Headers.TrimInPlace | xkey-core/src/lib.rs:149-165 | the two shrinking loops give the trimmed slice |
| Headers.TrimUnique | xkey-core/src/lib.rs:149-165 | that slice is the only one with whitespace alone outside it and none at its ends |
| Headers.TrimInBytes | xkey-core/src/lib.rs:149-165 | what is trimmed off is bytes 9, 10, 12, 13 and 32, and all there are at both ends |
| Types.EqIgnoreCaseIff | xkey-core/src/lib.rs:133 | names match exactly if of one length and, byte by byte, the same or a letter in either case |
| Headers.PeelLine | xkey-core/src/lib.rs:125-136 | a line that matches gives the value, any other is passed over, whether lines end in CRLF or LF |
| Headers.FirstLineDecides | xkey-core/src/lib.rs:125-138 | up to its first byte 10, a line gives the trimmed rest after its first byte 58 if what precedes that, but for leading whitespace, is the name; any other line, or one without a colon, is passed over |
| Headers.HeaderLineValue | xkey-core/src/lib.rs:126-135 | a header line gives its trimmed value to its own name, ignoring case, and nothing to others |
| Headers.StatusLineValue | xkey-core/src/lib.rs:127-130 | no header name matches a status line, even one with a colon in its reason |
| Headers.StoredMatchesLive | xkey-core/src/lib.rs:119-139 | a lookup in the rendered block gives the trimmed value of the first header the live lookup matches |
| Headers.TrimKeepsTagsIff | xkey-core/src/lib.rs:149-165 | trimming a value changes its tags exactly when a form feed is trimmed off |
| Headers.ScanSeesRecordedTags | src/record.rs:64-81 | the tags a scan reads from the block are those recording inserted, exactly when no form feed is trimmed off |
| Headers.FormFeedTagIsLost | xkey-core/src/lib.rs:149-165 | a value for which they differ |
| NodeKey.NodeKeyDetermines | xkey-core/src/lib.rs:41-52 | integer prefix and remaining bytes together determine the key, for 4- and 8-byte words of either byte order |
| NodeKey.WordInBytes | xkey-core/src/lib.rs:41-52 | the word is the sum of the leading 4 or 8 bytes, each weighed by its place in the order of the host |
| NodeKey.NodeLessIff | src/purge.rs:250-265 | nodes are ordered by word, and within a word by the first of the remaining bytes that differs |
| NodeKey.NodeOrderTotal | src/purge.rs:250-265 | the tree's comparison is irreflexive, asymmetric and total on distinct keys |
| NodeKey.NodeOrderTransitive | src/purge.rs:250-265 | and transitive |
| NodeKey.BytewiseIffBigEndian | xkey-core/src/lib.rs:35-40 | it is the bytewise order on big-endian hosts and on no others |
| CacheZone.Descend | src/purge.rs:247-265 | the search never turns away from the subtree that holds the key |
| CacheZone.Cache.Search | src/purge.rs:244-275 | finds the one node with the full key exactly when the tree has one, and terminates |
| CacheZone.Cache.Invalidate | src/purge.rs:235-280 | true exactly when the key was live; then its node alone changes, and the zone's size stays the sum over live nodes |
| CacheZone.ClearedAt | src/purge.rs:266-271 | the live node of the key is left gone and of size 0, every other node as it was |
| CacheZone.ClearingSubtracts | src/purge.rs:267-268 | the size taken off is exactly the node's share of the total, so it cannot underflow |
| CacheZone.ClearedTwice | src/purge.rs:266-271 | a second invalidation of a key finds nothing and changes nothing; other keys stay as live as they were |
| CacheZone.ClearedAllLives | src/purge.rs:86-88 | after any sequence of invalidations exactly the named keys are dead, and every other node is unchanged and in place |
| Recording.CollectTags | src/record.rs:64-70 | the value of the first header whose name matches ignoring case |
| Headers.LiveValueIsFirst | src/record.rs:64-74 | that value is the one of the first such header, and there is none exactly if there is no such header |
| Recording.InsertEach | src/record.rs:77-81 | every tag is inserted in turn, one refusal not stopping the others, and whether any succeeded |
| Recording.InsertAllConcat | src/record.rs:77-81 | a batch of two lists of tags is the first, then the second from where it ended |
| Recording.InsertAllOne | src/record.rs:80 | a batch of one tag is one insert |
| Recording.InsertAllNames | src/record.rs:77-81 | the index is asked for every tag of 1 to 1024 bytes in order, whatever became of those before it |
| Recording.BatchCounts | src/scan.rs:128-134 | a batch has written exactly if some insert of it succeeded, and its failures are the inserts of tags of 1 to 1024 bytes that did not |
| Recording.Record | src/record.rs:37-82 | what one response leaves in the index: nothing unless cached and tagged |
| Recording.QuietInsertAll | src/record.rs:76-81 | a batch that fails, evicts and drops nothing lists the key under each of its acceptable tags and changes nothing else |
| Scanning.PathsDiffer | src/purge.rs:292-309 | distinct keys have distinct paths |
| Scanning.Disk.DeleteFile | src/purge.rs:283-313 | unlinks the file of the key and no other; true exactly when it was there and could be unlinked |
| Scanning.StoredFileCarries | xkey-core/src/lib.rs:141-147 | a response's file, read back, carries exactly the tags recording saw, absent form feeds at the ends |
| Scanning.RecordedBeforeScanned | src/record.rs:62-82 | a response recorded without failure, eviction or drop is listed under every acceptable tag its file will carry |
| Scanning.Scan.Read | src/scan.rs:80-107 | skips unnamed, unreadable and untagged files; else gives the key and the tags |
| Scanning.Scan.PurgeFile | src/scan.rs:113-118 | clears the node and unlinks the file if it can be; counts one purge exactly if either had an effect |
| Scanning.Scan.WriteBack | src/scan.rs:126-139 | inserts the surviving file's tags and counts it if any insert succeeded |
| Scanning.Scan.OnFile | src/scan.rs:73-142 | the effect of one file on disk, zone, index, slab and all three counters |
| Scanning.Scan.Run | src/scan.rs:49-67 | a walk has the effect of the files it meets in the order met, and reports how it ended |
| Scanning.ScanOutcome | src/scan.rs:73-142 | in whatever order and however far it gets, a scan leaves exactly the files not met, not carrying the tag or not unlinkable, counts the met, counts as purged exactly those carrying the tag that it removed or whose node it cleared, and leaves dead exactly the keys of the latter |
| Scanning.FullScanOutcome | src/scan.rs:73-142 | complete and with every unlink succeeding, it leaves exactly the files not carrying the tag and counts exactly the files and those removed |
| Scanning.SweepNames | src/scan.rs:126-134 | a scan asks the index for every tag of 1 to 1024 bytes of every survivor, whatever became of those before |
| Scanning.IndexedCounts | src/scan.rs:128-138 | `indexed` is the number of survivors met with at least one insert that succeeded |
| Scanning.ScanRestoresCoverage | src/scan.rs:123-139 | from any index, a scan with no failure, eviction or drop ends with what was listed plus every surviving file's key under every acceptable tag it carries, and nothing else |
| Scanning.ScanLeavesTagAbsent | src/scan.rs:109-121 | the purged tag stays absent from the index |
| Purging.PurgeKeys | src/purge.rs:86-94 | every taken key is dead and, if it can be unlinked, off the disk; no other is touched; the count is exactly the keys that were live or could be unlinked |
| Purging.TakeKeys | src/purge.rs:71-80 | under one lock: the tag's keys, without duplicates, the index without the tag, and the counters as they stood |
| Purging.FallBack | src/purge.rs:117-177 | 404 untouched without falling back, an error untouched without a buffer; else a scan, an error if its walk failed, 404 exactly when it purged nothing |
| Purging.Handle | src/purge.rs:47-98 | disk, zone, index and reply of a whole purge request |
| Purging.BadRequestIff | src/purge.rs:47-55 | exactly a missing tag or one of more than 1024 bytes is refused, and nothing happens |
| Purging.HeldTagReply | src/purge.rs:69-97 | a held tag is answered 204 from the index with the number of listed keys that were live or could be unlinked and the pressure at the take; exactly the listed keys are dead and their files gone |
| Purging.NoScanReply | src/purge.rs:125-133 | a tag not held is missing exactly without falling back; no buffer or a failed walk is an error |
| Purging.ScanReply | src/purge.rs:154-177 | a scan that ends well is answered 404 if it purged nothing and else 204, with the numbers of files purged, met and written back and what the index has discarded by then |
| Purging.FreeScanReply | src/purge.rs:154-177 | with nothing stuck, the count is of the files removed, and 404 says exactly that none was |
| Purging.IndexAnswerExact | src/purge.rs:69-97 | an index answer leaves no file carrying the tag exactly when each such file can be unlinked and its key was added to the tag and not dropped, evicted or taken since |
| Purging.PurgeCompleteIff | src/purge.rs:82-97 | the same for a whole purge, scan or not, down to which files its walk meets; and whatever it removes carried the tag or was listed under it |
| Protocol.RunTracks | src/index.rs:57-228 | the index agrees with its history through every interleaving |
| Protocol.NextCovers | src/purge.rs:69-94 | every step that leaves the counters clean keeps every file and flight reachable through exactly the acceptable tags it has not lost |
| Protocol.FileLossHasCause | src/record.rs:4-6 | a file loses a tag only by a restart, or is committed with it lost |
| Protocol.FlightLossHasCause | src/purge.rs:69-71 | a response in flight loses a tag only when a purge taken since it was recorded passes its key |
| Protocol.HealthyRunsAreCovered | src/record.rs:76-81 | over all interleavings from empty, restarts included, while no acceptable insert failed and nothing was evicted or dropped since the index was set up, each file is listed under, or waiting in a purge of, exactly the acceptable tags it has not lost |
| Protocol.PurgeKeepsItsPromise | src/purge.rs:69-97 | each single file committed before a purge began and listed or pending then, and every such file if a scan answered, is gone or replaced once no purge of the tag is left to reach it, whatever became of the others |
| Protocol.HealthyPurgeMissesOnlyTheLost | src/purge.rs:69-97 | from empty with clean counters, a purge leaves of the files stored before it only those that had lost its tag, and none if a scan answered; each file judged by itself |
| Protocol.WalkRestoresCoverage | src/scan.rs:123-139 | from empty, restarts included, under any interleaving: with the counters still clean, every file older than a walk that the walk has left behind is reachable through each acceptable tag it carries |
| Misses.LonePurgeRemovesTheListed | src/purge.rs:82-97 | a purge answered from the index, no other of its tag at work, removes exactly the files whose key was listed |
| Misses.LonePurgeLeavesTheLost | src/purge.rs:82-97 | with clean counters it leaves a file carrying its tag exactly if the file had lost the tag |
| Misses.EvictedThenRecordedAgain | src/index.rs:7-12 | four stores into room for two tags, two evictions, after which the index would answer without the first file |
| Misses.RefusedWhilePurging | src/record.rs:78-79 | a store refused by an empty index while a purge still holds its list, to the same effect, nothing evicted or dropped |
| Misses.FullTagForgets | src/index.rs:25-31 | distinct keys stored under one tag: the index would answer without exactly those beyond the newest 65536, nothing evicted or refused |
| Misses.ServedAfterRestart | src/scan.rs:8-10 | a run with one restart to the same effect, all counters clean |
| Misses.PurgedInFlight | src/record.rs:4-6 | a run with a purge between recording and commit to the same effect, nothing evicted, dropped or refused |
| Simulation.VisitIsAStep | src/scan.rs:73-142 | visiting a recognised file is one step of the protocol; visiting any other changes nothing in it |
| Simulation.TakeIsAStep | src/purge.rs:71-80 | taking a tag is the start of a purge, on the keys taken or on the files there are |
| Simulation.PurgeKeyIsAStep | src/purge.rs:86-94 | unlinking the file of the next taken key is one step |
| Simulation.RecordIsAStep | src/record.rs:62-82 | recording a response is one step, with the tags of its live value |
| Simulation.CommitIsAStep | src/record.rs:4-6 | writing the file of a recorded response is one step, with the recorded tags, exactly when no form feed is trimmed off the value |
| Simulation.ForgetIsAStep | src/index.rs:7-10 | a file dropped, or replaced by one without the header, is a key forgotten |
| Simulation.AbortIsAStep | src/record.rs:4-6 | an aborted transfer leaves its recording behind, and no file |
| Simulation.RestartIsAStep | src/purge.rs:114-116 | losing the index and keeping the files is a restart |
| Simulation.AnswerIsARun | src/purge.rs:69-98 | a purge request served with nothing interleaved is a run of the protocol: its start, then steps of its own alone |

## Left out

- TagIndexHeap.TagIndex: counters are unbounded naturals; 64-bit wrap-around of `evicted`, `dropped`, `tags` and `keys` is not modelled. That no subtraction goes below zero is.
- TagIndexHeap.Slab: the slab answers from a fixed list of replies that may refuse anything; which requests a real slab refuses, page accounting and the effect of freeing are not modelled. A refused request has no other effect.
- TagIndexHeap.TagIndex.Evict: the source unlinks before it looks the tag up in the map; the model looks it up first. The lookup always succeeds, so the order cannot be seen.
- TagIndexHeap.Entry: the entry's key list is a value with a capacity; the buffer behind it is not modelled. The map is an abstract map from tags to entries.
- Scanning.Disk: the directory is a map from paths to header blocks or nothing; `read_header_block` is taken to give the stored block or nothing, and a walk to meet files in any order. A path that cannot be unlinked stays so throughout a request; a failed request-pool allocation in `delete_file` has the same effect and is not told apart. The directory part of a path is any function of the key.
- Scanning.Scan: the index to write back to is taken to be there, as the handler has already used it.
- Purging.Handle: the request's tag, the settings and the course of the walk are inputs; method checks, body discarding, missing configuration and response headers are not modelled. It runs with nothing interleaved; interleavings are the subject of `Protocol`.
- Protocol.Next: a purge of one key, or a visit of one file, is one step, and every unlink of a file that is there succeeds.
- CacheZone.Cache: the tree is any ordered tree of nodes; red-black balance, insertion and the zone's mutex are not modelled.
- Bytes are integers from 0 to 255; shifts and masks are written as division and remainder by 16.
- Directive parsing, module tables, request plumbing, the status endpoint's JSON, `index::shared` and zone initialisation, and the choice of cacheable responses.
