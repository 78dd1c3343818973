# A verified model of harddrive-party

harddrive-party lets peers share directories: each peer keeps an index of what it
shares, others browse it, put paths on a wishlist and download the files over
connections that are punched through NATs. This project models the path a download
takes through the program and proves what the program relies on along the way. The
models follow the code at the cited lines branch by branch; where a property fails
for some input, a lemma says exactly for which.

| part | files | main results |
|---|---|---|
| Share index | `ShareAlias`, `ShareIndex`, `ShareIndexInvariant`, `ShareIndexRescan`, `Shares` | `RunValid`, `RemovalAccountedIff`, `RescanIsFreshScan`, `RemovalSparesOthers`, `ResolvesInsideShare`, `AliasIsStable` |
| Wishlist | `WishlistCodec`, `WishlistStore`, `Wishlist` | `RunAgrees`, `AddFileAgreesIff`, `CompleteAgreesIff`, `CompletionReportedIff`, `RunLeavesAlone` |
| Requests of a peer | `RequestStream`, `StreamDeliveries` | `RunLosesNothing`, `IdleOffersOutstanding`, `OldestYieldedFirst`, `DeliveredTwiceIff`, `RunDeliversOnceIff` |
| Listing to wishlist | `Download`, `DownloadTheorems` | `DownloadFromPeer`, `DownloadSizesSum`, `DownloadAgreesIff`, `DownloadStaysWithin` |
| Transfer | `Transfer`, `PeerWorker` | `AttemptsKeepPrefix`, `SuccessIsEqualIff`, `UncutRunConverges`, `SharedPathWholeIff`, `ProcessKeeps`, `MarkedIsWholeIff` |
| One peer's tasks together | `PeerStream`, `PeerSystem` | `InterleavedRunAgrees`, `AnnouncedOnce`, `AddFileSoundIff`, `AddedIsServed`, `OfferedOnceIff` |
| Connection registry | `Registry`, `RegistryProofs`, `RegistryTheorems`, `RegistryDisconnect`, `RegistryEffects`, `RegistryTasks` | `OpenConnectionStays`, `OpenHandlersOwnTheirEntry`, `ConnectionsConserved`, `LossesReportedOnce`, `AttemptsNeverOverlap`, `StaysAwayIff`, `DisconnectWorksIff` |
| Hole punch | `HolePunch` | `SuccessMeansBothHeard`, `AckSideStaysAck`, `BothSucceedIff`, `SecondSideSucceedsIff` |
| Framing | `Framing` | `ClientReceives`, `DecodersAgree`, `FrameRoundTripIff` |
| Speedometer | `Speedometer` | `Measure` |
| Announce addresses | `Base64`, `AnnounceAddress` | `AddressRoundTripIff`, `PrintParsed`, `DecodeEncode`, `EncodeDecode` |

`Bytes`, `Paths` and `MapSum` are the shared ground: byte strings in key order with
prefix scans and big-endian numbers, slash-separated paths and their components, and
sums over finite maps.

How the parts are modelled:

- The key-value store's trees are maps from byte strings; a prefix scan is the
  ascending sequence of matching keys. Every single tree operation is atomic.
- 64-bit sums wrap, as in a release build. `ShareIndexInvariant.ExactBelowLimit` and
  `DownloadTheorems.DownloadSizesSum` say when they are exact.
- Objects that the program updates in place are classes: `Shares.Shares`,
  `Shares.Chunker`, `Wishlist.WishList`, `RequestStream.RequestsForPeer`,
  `Transfer.DownloadDir`, `RegistryTasks.SharedState`, `Framing.LengthPrefixedStream`,
  `Speedometer.Speedometer`. Their methods are proved against functions on values,
  and the theorems are about those functions.
- Concurrent parts are transition systems whose steps are single critical sections:
  `Registry` for the code around `peers`, `pending_outbound_connections` and
  `manually_disconnected_peers`, `RequestStream` for the reader of a tree that others
  write, `PeerSystem` for that reader together with the worker it feeds and everyone
  who writes, `HolePunch` for two sides and a network.
- What the outside world decides is a parameter: what a directory walk reports and
  where it fails, how bytes are cut into chunks, which write fails, when a connection
  closes, what the clock reads.

Properties that do not hold as one might expect, with the exact condition:

- `remove_share_dir` accepts any string. The cached sizes stay right if and only if
  the name has no directory entry, is a listed alias, is a directory of recorded size
  zero, or is the root of an index without files (`RemovalAccountedIff`).
- The by-peer key of a wished file does not contain the request id. Two requests to a
  peer in one second that share a path lose the first one's file
  (`SharedSlotLosesFile`); adding or completing a file keeps the trees in agreement if
  and only if the key is not another request's and the file was not counted before
  (`AddFileAgreesIff`, `CompleteAgreesIff`, `DownloadAgreesIff`).
- The request stream does not deliver exactly once. After an insert a record can be
  delivered twice if and only if, before it, the scan was under way and still to come
  to the key, or an earlier insert under the key had not been read
  (`DeliveredTwiceIff`, `DeliveredOnceIff`); in a whole run no key can ever be delivered
  twice if and only if every insert is careful of that (`RunDeliversOnceIff`). That is
  what makes the files offered to the worker distinct (`OfferedOnceIff`), and completing
  one file twice counts it twice unless it is empty (`SecondCompletionBreaks`).
- The list of all requests shows a request if and only if no later one was made in the
  same second (`ShownIff`).
- A manual disconnect is meant to last until the user asks for the peer again
  (src/lib.rs:214-215). It does if and only if, when the name is recorded, no handler
  has passed its check without having cleared the mark yet, no connect call for the
  name is under way, and no handler has decided to reconnect while the program is not
  shutting down (`DisconnectWorksIff`, `StaysAwayIff`). A handler's own reconnect that
  was begun earlier undoes it (`ReconnectUndoesDisconnect`).
- A request is announced complete when its last file with bytes is marked, once
  (`AnnouncedOnce`), and once more for each empty file that is marked afterwards
  (`EmptyFileAnnouncesIff`).
- Adding a file writes two trees. A completion that comes in between does harm if and
  only if it is of the file being added (`OvertakenAddIff`).
- A download is judged by length. A successful attempt leaves the remote contents if
  and only if the local file was a prefix of them and no block the file had accepted
  was lost afterwards (`SuccessIsEqualIff`); a file is flagged downloaded either way
  (`MarkedIsWholeIff`).
- Two peers that share a path share a local file. After an attempt for one of their
  files has succeeded, that file is there in full at the end if and only if every byte
  range fetched from the other peer, before or after, is the same in both files
  (`SharedPathWholeIff`).
- A block that reaches the file only after the next attempt has read its length is
  fetched again and spoils it (`LateBlockIff`).
- A hole punch that succeeds on one side need not on the other. Each side returns Ok if
  and only if it hears a packet before its INITs are used up and then sees an
  acknowledgement sent and hears one, with no error or deadline in between
  (`BothSucceedIff`); once one side has succeeded, the other does if and only if it
  still gets what is missing of the last two (`SecondSideSucceedsIff`), and both
  outcomes are always possible (`SuccessSpreads`, `SuccessMayStayAlone`).
- An IPv6 address parses back from its printed form if and only if it has no flow
  information and no scope (`AddressRoundTripIff`).
- A framed message reads back if and only if its length fits in 32 bits
  (`FrameRoundTripIff`).

Where the program's comments and its code differ, the model follows the code: the
comment on the requests tree (src/wishlist.rs:325-326) leaves out the directory flag
that the value holds at byte 48.

## Model

| member | source | states |
|---|---|---|
| `Paths.SafeRemoteRelativePath` | src/peer.rs:319-333 | a peer-provided path is accepted exactly when it is relative, does not begin with the current directory and never goes up; what is accepted are its pieces that are neither empty nor a dot |
| `Paths.SafeIff` | src/peer.rs:319-333 | the same of the specification, from the pieces between separators alone |
| `Paths.FileNameIs` | src/shares.rs:121-126 | the base name of a path is its last named piece, unless there is none or it goes up |
| `Paths.WellFormedIsSafe` | src/peer.rs:319-333 | every index path, and the root, is accepted and keeps all its components |
| `Paths.WithinIsAtOrBelow` | src/peer.rs:335-337 | the request filter keeps a path exactly when it is the requested one or lies below it by components; siblings sharing a byte prefix are dropped |
| `Paths.BelowIsComponentPrefix` | src/shares.rs:295-298 | the byte test "starts with the name and a separator" is exactly the proper-prefix test on components |
| `Paths.AncestorsAreAbove` | src/shares.rs:86-96 | the parents visited when a file is added are exactly the directories it lies below, each once, the root included |
| `ShareAlias.ShareNameForPath` | src/shares.rs:113-160 | the search terminates and returns the alias the path already holds, else the first free candidate |
| `ShareAlias.FreeCandidate` | src/shares.rs:128-157 | the candidate found is the first free one in the order tried |
| `ShareAlias.SomeCandidateFree` | src/shares.rs:152-157 | pigeonhole: with finitely many aliases taken some candidate is free, so the numbered loop ends |
| `ShareAlias.NumberedInjective` | src/shares.rs:152-157 | different numbers give different aliases |
| `ShareAlias.CandidateGood` | src/shares.rs:121-157 | every candidate is a separator-free name |
| `ShareAlias.CandidateIs` | src/shares.rs:128-157 | each longer suffix puts the next directory and " - " before the alias tried before; the numbers follow the base name and " - " and rise from 2 |
| `ShareAlias.AliasIsStable` | src/shares.rs:56-67 | the alias is separator-free, is the one already held by the path or unused, and recording it keeps aliases and paths one to one |
| `Shares.Shares.InsertFile` | src/shares.rs:83-97 | one file: each directory above it gains its size in 64-bit arithmetic, and its path maps to its size |
| `Shares.Shares.StoreWalk` | src/shares.rs:69-109 | the walk loop stores what is reported up to the first error and returns the count or that error |
| `Shares.Shares.Scan` | src/shares.rs:49-110 | a scan equals its specification, and keeps a valid index valid wherever it aborts |
| `Shares.Shares.RemoveShareDir` | src/shares.rs:244-281 | removal equals its specification, reports a missing entry, and keeps a valid index valid for a listed alias |
| `Shares.DeleteMatching` | src/shares.rs:262-275 | scanning by byte prefix and deleting what matches removes exactly the name itself and what lies below it |
| `Shares.Shares.ResolvePath` | src/shares.rs:206-241 | with a valid index an indexed file resolves to the disk path it was scanned from and its size, with the components of the shared directory followed by its own; other paths are not found |
| `ShareIndex.TotalAfterInsert` | src/shares.rs:85-97 | a new file adds its size to the recursive sum of exactly the directories above it |
| `ShareIndex.TotalAfterKeep` | src/shares.rs:244-281 | dropping a subtree takes its sum off every directory above it and nothing off the others |
| `ShareIndex.DiskPathIs` | src/shares.rs:236-241 | on disk a file has the components of the shared directory followed by its own, whether or not the directory ends in a separator |
| `ShareIndexInvariant.RootAfterRemoval` | src/shares.rs:246-259 | a removal takes the recorded size off the root entry, or leaves a zero one |
| `ShareIndexInvariant.AddFileValid` | src/shares.rs:85-97 | storing a new file keeps every cached size the recursive sum and every ancestor present |
| `ShareIndexInvariant.AbsorbValid` | src/shares.rs:69-109 | wherever a walk stops, the index it leaves is valid |
| `ShareIndexInvariant.ScanValid` | src/shares.rs:49-110 | scans and rescans, complete or aborted, keep the index valid |
| `ShareIndexInvariant.RemoveAliasValid` | src/shares.rs:244-281 | removing a listed alias keeps the index valid and leaves no file under it |
| `ShareIndexInvariant.RunValid` | src/shares.rs:49-281 | in every run of scans, rescans, aborted scans and removals of aliases each directory size is the sum of the files below it, all ancestors are present and aliases stay one to one |
| `ShareIndexInvariant.RunFromEmpty` | src/shares.rs:29-281 | every index reached from an empty database has right sizes, all ancestors and one-to-one aliases |
| `ShareIndexInvariant.ExactBelowLimit` | src/shares.rs:363-371 | while everything shared stays below 2^64 bytes the sizes are exact sums and the root is at least any part, so no subtraction underflows |
| `ShareIndexInvariant.RemovalAccountedIff` | src/shares.rs:244-281 | removing an arbitrary string keeps the sizes right if and only if it has no entry, is an alias, has recorded size zero, or is the root of an empty index |
| `ShareIndexInvariant.RootRemoval` | src/shares.rs:244-281 | removing the root entry is right exactly when no file is indexed |
| `ShareIndexRescan.ScanResultIs` | src/shares.rs:49-110 | a scan replaces what lies under the alias by what the walk stores, leaves all else, and reports the outcome of the walk |
| `ShareIndexRescan.UnnamedScanIff` | src/shares.rs:49-56 | a scan fails for want of a name exactly if the path holds no alias and has no base name, and then changes nothing |
| `ShareIndexRescan.DirsDetermined` | src/shares.rs:363-371 | in valid indexes the directory sizes are determined by the files |
| `ShareIndexRescan.RescanIsFreshScan` | src/shares.rs:49-110 | a rescan gives the index and result that scanning only the current contents would give |
| `ShareIndexRescan.RemoveUndoesScan` | src/shares.rs:244-281 | removing a newly scanned share restores the index; a share without files keeps its empty alias |
| `ShareIndexRescan.RemovalSparesOthers` | src/shares.rs:295-298 | removal takes exactly the entries whose first component is the alias; all others keep sizes and resolution, also when their alias extends it |
| `ShareIndexRescan.ResolvesToOrigin` | src/shares.rs:206-241 | each indexed file resolves to the disk path it was scanned from with its indexed size, any other path to not-found |
| `ShareIndexRescan.ResolvesInsideShare` | src/shares.rs:206-241 | the resolved path lies in the shared directory: its components, then those of the file below the alias |
| `ShareIndexRescan.ResolveFailsIff` | src/shares.rs:206-241 | a path is not found exactly if it is not indexed, and an indexed one fails only for want of its alias |
| `ShareIndexRescan.ScannedFileResolves` | src/shares.rs:49-110 | whatever a scan stored resolves to where the walk saw it |
| `Shares.RecursiveQueryLists` | src/shares.rs:163-202 | a recursive query lists exactly the entries whose key extends the path bytewise |
| `Shares.PlainQueryListsChildren` | src/shares.rs:301-336 | of everything below a directory a plain query lists exactly what is directly inside it |
| `Shares.PlainQueryLists` | src/shares.rs:301-336 | for any path a plain query lists the entries whose key goes on without a separator, after one at most |
| `Shares.QueryRefusesIff` | src/shares.rs:172-180 | in a valid index a path is refused exactly if no file is at or below it |
| `Shares.ChunksFlatten` | src/shares.rs:339-360 | chunking keeps all entries in order, sends no empty chunk, and only the last may be short |
| `Shares.Chunker.Next` | src/shares.rs:347-360 | each poll returns the next chunk, and nothing once the input is used up |
| `WishlistCodec.RequestRoundTrip` | src/wishlist.rs:73-134 | a stored request decodes to itself |
| `WishlistCodec.RequestBytesRoundTrip` | src/wishlist.rs:73-134 | which bytes decode as a request, and that they are reproduced exactly when the directory flag is 0 or 1 |
| `WishlistCodec.FileRoundTrip` | src/wishlist.rs:207-310 | both records of a file decode to it, the by-peer one without the downloaded flag |
| `WishlistCodec.RequestLayout` | src/wishlist.rs:73-134 | where each field of a request is in its record, numbers most significant byte first |
| `WishlistCodec.FileLayout` | src/wishlist.rs:207-310 | where each field of a file is in its two records |
| `WishlistCodec.PeerBytesRoundTrip` | src/wishlist.rs:207-239 | which bytes decode as a by-peer record, and that key and value are reproduced exactly when the value has 12 bytes |
| `WishlistCodec.FileBytesRoundTrip` | src/wishlist.rs:242-269 | which bytes decode as a by-request record, and that they are reproduced exactly when the value has 9 bytes and its flag is 0 or 1 |
| `WishlistCodec.PeerPrefix` | src/wishlist.rs:425-435 | a scan by a peer key meets exactly the records of that peer |
| `WishlistCodec.RequestPrefix` | src/wishlist.rs:391-398 | a scan by a request id meets exactly the records of that request |
| `WishlistCodec.OldestFirst` | src/wishlist.rs:274-297 | the key order of one peer is request time first, then path |
| `WishlistCodec.PeerKeysDistinct` | src/wishlist.rs:274-297 | by-peer keys are equal exactly when peer, second and path are, whatever the request |
| `WishlistCodec.FileKeysDistinct` | src/wishlist.rs:299-301 | by-request keys are equal exactly when request and path are |
| `Wishlist.WishList.AddRequest` | src/wishlist.rs:461-466 | both request trees hold the new request and nothing else changes |
| `Wishlist.WishList.GetRequest` | src/wishlist.rs:529-537 | the stored request, or the no-request error |
| `Wishlist.WishList.GetDownloadProgressForRequest` | src/wishlist.rs:511-526 | the stored progress, zero if there is none |
| `Wishlist.WishList.AddRequestedFile` | src/wishlist.rs:470-479 | both file trees hold the file; without its request nothing changes and the error is returned |
| `Wishlist.WishList.FileCompleted` | src/wishlist.rs:482-508 | the outstanding entry goes, progress grows by the size, the file is flagged, and the result says whether progress equals the total; both request trees and the progress of other requests stay; without the flag or the request nothing changes |
| `WishlistStore.CompletionTouches` | src/wishlist.rs:482-508 | a completion flags its own file, frees its own entry and adds to its own progress; every request stays listed, and all else stays |
| `WishlistStore.AdditionTouches` | src/wishlist.rs:470-479 | an addition enters its own file and entry and nothing else |
| `WishlistStore.RequestTouches` | src/wishlist.rs:461-466 | a request is recorded and listed; another loses its place in the list only if it was made in the same second |
| `WishlistStore.FailuresChangeNothing` | src/wishlist.rs:470-508 | which calls fail, with which error, and that these change nothing |
| `WishlistStore.RunLeavesAlone` | src/wishlist.rs:461-526 | over any run of calls for other requests a request keeps its record, its place in the list, its progress and its files |
| `Wishlist.WishList.Requested` | src/wishlist.rs:358-388 | for each second in which a request was made, oldest first, the request on record for it and its progress |
| `WishlistStore.ShownIff` | src/wishlist.rs:132 | of requests with new ids one is listed if and only if no later one was made in the same second |
| `Wishlist.WishList.RequestedFiles` | src/wishlist.rs:391-414 | the chunks hold exactly the files of the request, each once, in path order |
| `WishlistStore.AddFileAgreesIff` | src/wishlist.rs:470-479 | adding a file keeps progress, flags and outstanding entries in agreement if and only if its key is not another request's and it was not counted |
| `WishlistStore.CompleteAgreesIff` | src/wishlist.rs:482-508 | completing a file keeps them in agreement if and only if it was not counted before and its key is not another request's |
| `WishlistStore.AddRequestAgreesIff` | src/wishlist.rs:461-466 | adding a request keeps them in agreement if and only if it moves no outstanding key |
| `WishlistStore.RunAgrees` | src/wishlist.rs:461-526 | over every proper run progress is the sum of the downloaded files and a file is outstanding exactly when it is not downloaded |
| `WishlistStore.EmptyAgrees` | src/wishlist.rs:347-355 | a new wishlist agrees |
| `WishlistStore.CompletionReported` | src/wishlist.rs:496-507 | when the files of a request sum to its total, completion is reported exactly when the remaining files are empty |
| `WishlistStore.CompletionReportedIff` | src/wishlist.rs:496-507 | in general, exactly when the sizes of its downloaded files sum to the total size of the request, in 64-bit arithmetic |
| `WishlistStore.TakenSlotLosesFile` | src/wishlist.rs:473-476 | an entry taken by another request leaves a file that is neither downloaded nor outstanding |
| `WishlistStore.SharedSlotLosesFile` | src/wishlist.rs:274-297 | two requests to a peer in one second for one path: the first one's file is never offered |
| `WishlistStore.OvertakenAddIff` | src/wishlist.rs:470-479 | a completion between the two inserts of an addition does harm if and only if it is of the file being added |
| `WishlistStore.SecondCompletionBreaks` | src/wishlist.rs:498-501 | completing a file twice breaks the accounting exactly when the file is not empty |
| `RequestStream.RequestsForPeer.Next` | src/wishlist.rs:437-456 | polling runs the scan to its end, then the events; it waits only when nothing is left to scan and no event is queued |
| `RequestStream.StepLosesNothing` | src/wishlist.rs:421-458 | each step of reader or writers keeps every outstanding record yielded since its last insert, ahead of the scan, or queued |
| `RequestStream.RunLosesNothing` | src/wishlist.rs:421-458 | so does every run, with inserts also between creating the scan and subscribing |
| `RequestStream.IdleMeansAllYielded` | src/wishlist.rs:421-458 | a stream with nothing left to read has yielded every outstanding record since its last insert |
| `RequestStream.IdleOffersOutstanding` | src/wishlist.rs:416-424 | in particular every file the wishlist holds as outstanding for the peer |
| `RequestStream.OnlyStoredFilesYielded` | src/wishlist.rs:425-456 | every yielded file is a record of this peer that was in the tree |
| `RequestStream.UndisturbedScan` | src/wishlist.rs:438-441 | with no writer at work the scan yields exactly the outstanding records in key order |
| `RequestStream.OldestYieldedFirst` | src/wishlist.rs:425-441 | of two files the scan yields the earlier one was requested earlier, or in the same second with the smaller path |
| `RequestStream.InsertedInOrder` | src/wishlist.rs:443-456 | what is inserted while the stream waits is yielded in the order of the inserts |
| `StreamDeliveries.RunBalance` | src/wishlist.rs:421-458 | without another insert under a key, deliveries made and owed never grow together, and stay equal unless it is removed |
| `StreamDeliveries.ReachIff` | src/wishlist.rs:421-458 | from any state the deliveries under a key can reach exactly those made plus those owed |
| `StreamDeliveries.DeliveredTwiceIff` | src/wishlist.rs:421-458 | after an insert in any state of any run the record can be delivered twice if and only if the scan was still to come to its key or an earlier insert was unread |
| `StreamDeliveries.DeliveredOnceIff` | src/wishlist.rs:421-458 | left alone until the stream is idle, it is then delivered exactly once if and only if neither was the case, and at least once always |
| `StreamDeliveries.InsertedAheadComesTwice` | src/wishlist.rs:435-449 | an instance: a file inserted ahead of the scan |
| `StreamDeliveries.StepAtMostOnceIff` | src/wishlist.rs:421-458 | a step keeps every key at one delivery at most if and only if it is a careful one |
| `StreamDeliveries.RunDeliversOnceIff` | src/wishlist.rs:421-458 | at no point of a run can a key be delivered twice if and only if every insert is careful |
| `StreamDeliveries.CarefulRunDeliversOnce` | src/wishlist.rs:421-458 | a run of careful inserts delivers under no key twice |
| `StreamDeliveries.StreamPaired` | src/wishlist.rs:425-456 | each yielded file was read from a held record under the key noted for it |
| `Download.TakeEntry` | src/lib.rs:265-309 | one entry: unsafe and outside paths are skipped, the requested path stores the request, every file is added |
| `Download.Download` | src/lib.rs:233-313 | the whole call: the early failures in order, and the wishlist afterwards |
| `Download.ExpandAfterRequest` | src/lib.rs:297-309 | once the request is stored every further taken file is stored |
| `Download.ExpandOtherDirs` | src/lib.rs:265-296 | directories other than the requested path leave the wishlist as it is |
| `DownloadTheorems.TakesAtOrBelow` | src/lib.rs:266-284 | of the indexed paths exactly the requested one and those below it pass the filter |
| `DownloadTheorems.PathRowFirst` | src/shares.rs:182-190 | a stored path is the first entry of its own listing and occurs once |
| `DownloadTheorems.DownloadCollects` | src/lib.rs:259-313 | for a valid remote index and any path in it the wishlist gains the request and exactly the files at or below the path; none precedes the request |
| `DownloadTheorems.DownloadFromPeer` | src/lib.rs:259-313 | the same end to end, from the chunked answer |
| `DownloadTheorems.DownloadSizesSum` | src/lib.rs:286-309 | the sizes of those files sum to the total size of the request, exactly below 2^64 |
| `DownloadTheorems.DownloadAgreesIff` | src/lib.rs:286-309 | a download under a new id keeps the wishlist in agreement if and only if none of its by-peer keys is taken |
| `DownloadTheorems.AnswerInChunks` | src/shares.rs:192-201 | sending an answer in chunks does not change what is read |
| `Download.ListedStops` | src/lib.rs:259-265 | a broken frame ends the answer |
| `Download.ListedSkips` | src/lib.rs:259-313 | an error answer is passed over |
| `DownloadTheorems.DownloadStaysWithin` | src/lib.rs:259-313 | whatever a peer answers, only safe paths within the requested one get onto the wishlist, under the new request alone, and other requests stay as they are |
| `Transfer.DoRead` | src/connections/rpc.rs:282-350 | the upload loop sends block after block, part of one when its write fails, or one zero byte on an unresolved read |
| `Transfer.UploadIsPrefix` | src/connections/rpc.rs:303-329 | what is sent is a prefix of the requested portion |
| `Transfer.UploadWhole` | src/connections/rpc.rs:303-329 | without failures it is the whole portion, however little each read gives |
| `Transfer.GrantIs` | src/connections/rpc.rs:366-405 | a read is granted the file from its start to its end offset as far as the file goes; when it is refused, and why |
| `Transfer.UploadPace` | src/connections/rpc.rs:298-329 | no turn sends more than 64 KiB |
| `Transfer.UploadAbortsIff` | src/connections/rpc.rs:303-348 | the output breaks off with an error exactly if a write fails before the portion is sent and no read has failed |
| `Transfer.DownloadDir.Receive` | src/peer.rs:218-291 | the receiving loop appends the data up to the first write that is refused or lost, and on a write error counts only reported bytes |
| `Transfer.DownloadDir.Download` | src/peer.rs:182-313 | one attempt: path checks, resume offset, early success, failure to open, and the result by byte count |
| `Transfer.FetchTouches` | src/peer.rs:369-431 | a call adds to its own file, inside the directory, and touches no other; an unacceptable path touches nothing; a complete file succeeds as it is; an empty one is still asked for |
| `Transfer.CleanCount` | src/peer.rs:215-291 | without a failed write every byte received is counted |
| `Transfer.FailedCount` | src/peer.rs:225-231 | a refused write leaves the count where it was last reported |
| `Transfer.ReceivedFromUploader` | src/connections/rpc.rs:366-405 | what arrives from the uploader is a part of the remote file from the requested offset |
| `Transfer.AttemptKeepsPrefix` | src/peer.rs:182-313 | one attempt, cut anywhere: the local file grows and stays a prefix; unless an accepted block is lost, bytes counted never exceed its length; success means equality if and only if none is lost |
| `Transfer.UncutSucceeds` | src/peer.rs:182-313 | an attempt that is not cut short and loses no block succeeds |
| `Transfer.SuccessIsEqualIff` | src/peer.rs:396-408 | for any existing file a successful attempt leaves the remote contents if and only if the file was a prefix of them and no accepted block was lost |
| `Transfer.SharedPrefixIff` | src/peer.rs:369-408 | attempts of two peers on one path: the local file stays a prefix of one peer's file exactly as long as every range fetched from the other is the same in both |
| `Transfer.SharedPathWholeIff` | src/peer.rs:369-408 | a file one of whose attempts has succeeded is whole at the end if and only if the first content was a prefix of it and every range fetched from the other peer, before or after, is the same in both |
| `Transfer.LateBlockIff` | src/peer.rs:392-406 | when a block of an earlier attempt lands after the length was read, a success leaves the remote contents if and only if there was no such block |
| `Transfer.AttemptsKeepPrefix` | src/peer.rs:182-411 | over any sequence of attempts the local file never shrinks and stays a prefix |
| `Transfer.SuccessIsFinal` | src/peer.rs:182-411 | after one success without a lost block the file equals the remote one for the rest of the run |
| `Transfer.UncutRunConverges` | src/peer.rs:182-411 | a run whose last attempt is not cut short ends with the remote contents |
| `PeerWorker.ProcessRequests` | src/peer.rs:103-179 | the worker loop: when it stops, what it downloads, what it marks and which requests it reports complete |
| `PeerWorker.TurnReportsIff` | src/peer.rs:139-160 | a turn announces its request complete if and only if it marks its file and then nothing with bytes is left of the request; it announces nothing else |
| `PeerWorker.EmptyFileAnnouncesIff` | src/peer.rs:139-160 | marking an empty file announces the request, again, if and only if nothing with bytes was left already |
| `PeerWorker.UnfinishedTurn` | src/peer.rs:161-175 | a turn that does not mark its file leaves the wishlist as it was and announces nothing |
| `PeerWorker.TakesNext` | src/peer.rs:114-176 | the worker takes up the next file as long as the connection is open and the requests are known, also after a failed download |
| `PeerWorker.StopsAt` | src/peer.rs:115-121 | what comes after a closed connection or an unknown request is not touched |
| `PeerWorker.FetchExtends` | src/peer.rs:369-411 | one download extends its own file towards the remote one and no other shrinks; after a success it is whole if and only if no block was lost |
| `PeerWorker.ProcessKeeps` | src/peer.rs:103-179 | over any run, with repeats and cuts, files stay prefixes and none shrinks, and if no accepted block is lost every file flagged downloaded is on disk byte for byte |
| `PeerWorker.MarkedIsWholeIff` | src/peer.rs:139-144 | a successful download is flagged, and is on disk in full if and only if no accepted block was lost |
| `PeerWorker.OfferedIsPermitted` | src/wishlist.rs:482-508 | a file the wishlist holds as wanted can be completed in good order |
| `PeerStream.OfferedOnceIff` | src/peer.rs:111-114 | the worker is offered no file twice if and only if the stream has delivered under no key twice |
| `PeerStream.CarefulRunOffersOnce` | src/peer.rs:111-114 | careful inserts make the offered files distinct |
| `PeerSystem.ResumedRunAgrees` | src/wishlist.rs:416-424 | a stream opened on an agreed wishlist, with nothing added meanwhile, offers each file once, and the worker on it keeps progress, flags and outstanding files in agreement, however their steps interleave |
| `PeerSystem.StepKeeps` | src/peer.rs:103-179 | every step of user, stream, worker and other workers keeps the trees in agreement, the deliveries single, and what the worker has still to get wanted |
| `PeerSystem.AddFileSoundIff` | src/wishlist.rs:470-479 | adding a file while the peer is being served keeps all that if and only if its key is not another request's, it was not counted, and the insert is careful |
| `PeerSystem.InterleavedRunAgrees` | src/peer.rs:103-179 | in every interleaving progress is the size of the flagged files, exactly the others are outstanding, no file is offered twice, and each one still to handle is wanted |
| `PeerSystem.AddedIsServed` | src/wishlist.rs:416-420 | a waiting worker is given a file that is added, marks it when its download succeeds, and waits again |
| `PeerSystem.AnnouncedOnce` | src/peer.rs:139-160 | in every interleaving that adds nothing to a request whose files all have bytes, the request is announced complete once if its last file is marked meanwhile, and otherwise not at all |
| `PeerSystem.StoppedStays` | src/peer.rs:115-176 | a worker that has stopped handles and announces nothing more |
| `RegistryProofs.StepInv` | src/connections/mod.rs:314-560 | every step of every task keeps the registry invariant |
| `RegistryTheorems.RunInv` | src/connections/mod.rs:314-560 | so does every interleaving |
| `RegistryTheorems.OpenHandlersOwnTheirEntry` | src/connections/mod.rs:387-438 | a registered handler with an open connection owns the entry of its name; a name has at most one |
| `RegistryTheorems.CleanUpSparesReplacement` | src/connections/mod.rs:498-514 | a finishing handler removes no entry but its own |
| `RegistryTheorems.ConnectionsConserved` | src/connections/mod.rs:400-514 | per name, registrations are the current entry plus the replaced and the removed connections |
| `RegistryTheorems.LossesReportedOnce` | src/connections/mod.rs:498-560 | losses are reported exactly for removed connections, none twice, none for a replaced one; reconnects only follow reports |
| `RegistryTheorems.AttemptsNeverOverlap` | src/connections/mod.rs:314-369 | a name is pending exactly when one attempt for it is between reservation and release |
| `RegistryTheorems.QuietRun` | src/lib.rs:178-231 | with the mark set and no handler in the window, no connection registers until a connect call succeeds |
| `RegistryTheorems.DisconnectHoldsIff` | src/connections/mod.rs:387-445 | as long as no connect call for the name succeeds, a connection can register if and only if the mark is unset or a handler is in the window |
| `RegistryTheorems.MarkHoldsIff` | src/connections/mod.rs:387-445 | setting the mark keeps the peer out until a connect call for it succeeds if and only if no handler for the name is in the window |
| `RegistryDisconnect.AwayRun` | src/lib.rs:214-231 | marked, with nothing in the window, no call under way and no reconnect decided, the peer does not register until the user asks |
| `RegistryDisconnect.StaysAwayIff` | src/lib.rs:214-231 | the peer stays away until the user asks for it if and only if that is the state |
| `RegistryDisconnect.DisconnectWorksIff` | src/lib.rs:214-231 | what has to hold when a disconnect records the name for it to last until the user asks |
| `RegistryDisconnect.ReconnectUndoesDisconnect` | src/connections/mod.rs:549-551 | an instance from the start: a reconnect under way brings back a peer the user never asked for |
| `RegistryEffects.OpenEntryWins` | src/connections/mod.rs:401-406 | a newcomer that finds an open connection in the entry is closed, and that connection and the registry stay as they are |
| `RegistryEffects.ClosedEntryIsReplaced` | src/connections/mod.rs:408-438 | a newcomer that finds none takes the entry, and one it replaces was closed |
| `RegistryEffects.ClosedIff` | src/connections/mod.rs:389-414 | which steps close an open connection: the network, a disconnect, its own check, its own registration against an open entry |
| `RegistryEffects.EntryIff` | src/connections/mod.rs:400-514 | which steps change the entry of a name, and to what |
| `RegistryEffects.MarkedIff` | src/connections/mod.rs:389-445 | which steps mark a name and which take the mark away |
| `RegistryEffects.PendingIff` | src/connections/mod.rs:328-369 | which steps make a name pending and which end that |
| `RegistryEffects.ReplacedWasClosed` | src/connections/mod.rs:408-414 | in every interleaving a replaced connection was closed before its replacement registers |
| `RegistryEffects.OpenConnectionStays` | src/connections/mod.rs:400-438 | a registered connection that is left open keeps its entry over any run, and nobody else of its name registers |
| `RegistryEffects.RunForgetsNone` | src/connections/mod.rs:389-406 | over any run, every connection that is turned away is also closed |
| `RegistryEffects.LooksEndItIff` | src/connections/mod.rs:346-369 | each look of an outbound attempt ends it exactly if the name is pending, or connected, at that moment |
| `RegistryEffects.ConnectedIsSkipped` | src/connections/mod.rs:357-359 | an attempt to reach a peer that is connected the whole time never gets to connect |
| `RegistryEffects.AttemptReservesIff` | src/connections/mod.rs:346-369 | an undisturbed attempt reserves its name exactly if the peer is neither pending nor connected |
| `RegistryEffects.LossIsReportedAndDecided` | src/connections/mod.rs:498-560 | an undisturbed handler reports its loss exactly if the entry was its own, and decides to reconnect exactly if moreover no shutdown is in progress and the name is not marked |
| `RegistryEffects.ReconnectAsksIff` | src/connections/mod.rs:547-553 | a decided reconnect asks for the peer exactly if its address is known and no shutdown has begun |
| `RegistryEffects.NoCallAfterShutdown` | src/lib.rs:178-194 | once a shutdown has begun no connect call is begun, in any interleaving |
| `RegistryEffects.DisconnectMarksAndCloses` | src/lib.rs:214-231 | an undisturbed disconnect marks the name and closes its connection, or does nothing for a peer that is not connected |
| `RegistryTasks.SharedState.Accept` | src/connections/mod.rs:371-387 | a new connection becomes known, open and not registered |
| `RegistryTasks.SharedState.CheckManual` | src/connections/mod.rs:389-398 | the check closes the connection of a marked name and changes nothing else |
| `RegistryTasks.SharedState.RegisterPeer` | src/connections/mod.rs:400-438 | a connection registers exactly if no open one holds the entry, and is closed otherwise; no other connection is opened or closed; the state makes the registration step |
| `RegistryTasks.SharedState.ClearManual` | src/connections/mod.rs:441-445 | the clearing step |
| `RegistryTasks.SharedState.CleanUpPeer` | src/connections/mod.rs:498-514 | clean-up as one step; only an entry with the same identity is removed |
| `RegistryTasks.SharedState.CheckPending` | src/connections/mod.rs:348-355 | the first check of an outbound attempt |
| `RegistryTasks.SharedState.CheckPeers` | src/connections/mod.rs:357-359 | the second check of an outbound attempt |
| `RegistryTasks.SharedState.Reserve` | src/connections/mod.rs:361-368 | the reservation; it fails if the name has become pending |
| `RegistryTasks.SharedState.Release` | src/connections/mod.rs:328-332 | the release |
| `RegistryTasks.SharedState.LookUpPeer` | src/lib.rs:216-224 | the lookup of a disconnect call |
| `RegistryTasks.SharedState.MarkDisconnected` | src/lib.rs:225-228 | the marking step of a disconnect call |
| `RegistryTasks.SharedState.CloseDisconnected` | src/lib.rs:229 | the closing step of a disconnect call |
| `RegistryTasks.SharedState.FinishConnectCall` | src/lib.rs:207-210 | a successful connect call clears the mark |
| `HolePunch.HolePunchPeer` | src/connections/discovery/hole_punch.rs:287-361 | the loop equals the step function; Ok is returned if and only if a packet is heard in time and the exchange then completes; `MaxAttempts` means that only INIT was ever sent |
| `HolePunch.GivesUpIff` | src/connections/discovery/hole_punch.rs:308-325 | a side that is never answered gives up with the fiftieth packet it sends |
| `HolePunch.NextRound` | src/connections/discovery/hole_punch.rs:295-356 | a decided outcome is final; the deadline and a send error end a running side; it waits exactly after sending |
| `HolePunch.AsleepSucceedsIff` | src/connections/discovery/hole_punch.rs:295-356 | when a side that has heard nothing yet returns Ok: exact condition on its rounds |
| `HolePunch.AwakeSucceedsIff` | src/connections/discovery/hole_punch.rs:295-356 | when a side that has heard something returns Ok: exact condition on its rounds |
| `HolePunch.RunInv` | src/connections/discovery/hole_punch.rs:295-356 | the two-party invariant holds in every run |
| `HolePunch.SuccessMeansBothHeard` | src/connections/discovery/hole_punch.rs:295-356 | if one side returns Ok, each side has heard the other, and the other is past INIT and has not failed with `MaxAttempts` |
| `HolePunch.AckSideStaysAck` | src/connections/discovery/hole_punch.rs:295-356 | either side, once it has heard anything, never sends INIT again and cannot fail with `MaxAttempts` |
| `HolePunch.BothSucceedIff` | src/connections/discovery/hole_punch.rs:295-356 | in every run each side has returned Ok if and only if its own rounds meet that condition |
| `HolePunch.SecondSideSucceedsIff` | src/connections/discovery/hole_punch.rs:295-356 | once either side has returned Ok, the other does if and only if it still sends and hears what is missing before an error or deadline |
| `HolePunch.SuccessSpreads` | src/connections/discovery/hole_punch.rs:295-356 | it always can, on packets already sent |
| `HolePunch.SuccessMayStayAlone` | src/connections/discovery/hole_punch.rs:287-361 | and it always can time out instead |
| `HolePunch.SuccessCanBeOneSided` | src/connections/discovery/hole_punch.rs:295-356 | an instance of the latter, from the start |
| `Framing.WriteMessages` | src/connections/rpc.rs:201-219 | the listing writer emits the frames in order up to the first message too long for its prefix |
| `Framing.LengthPrefixedStream.PollNext` | shared/src/client/mod.rs:343-385 | each poll hands out the next complete message, waits, or ends; nothing received is lost |
| `Framing.Drain` | shared/src/client/mod.rs:343-385 | polling to the end yields exactly the complete messages, whatever the chunks, and tells a clean end from a cut one |
| `Framing.FirstStays` | shared/src/client/mod.rs:349-364 | bytes that arrive later do not change a complete message |
| `Framing.ProcessLengthPrefix` | src/lib.rs:347-378 | the exact-read loop yields whole messages of at most 1 MiB, in order, and what is left says why it stopped: too little, an announced length above 1 MiB, or an unreadable message |
| `Framing.AcceptedUpTo` | src/lib.rs:347-378 | of framed messages exactly those before the first that is longer than 1 MiB or unreadable are accepted |
| `Framing.FrameRoundTripIff` | src/ui_server/api.rs:315-320 | a framed message reads back if and only if its length fits in 32 bits |
| `Framing.PrefixDecodes` | shared/src/client/mod.rs:343-385 | any byte prefix of frames decodes to exactly the messages complete in it |
| `Framing.ClientReceives` | shared/src/client/mod.rs:343-385 | over any chunking of any byte prefix the client yields exactly the complete messages, and ends cleanly exactly at a boundary |
| `Framing.DecodersAgree` | src/lib.rs:347-378 | for messages of at most 1 MiB both decoders yield the same sequence |
| `Speedometer.Speedometer.EnterSample` | src/connections/speedometer.rs:58-64 | an entry is appended with the current time |
| `Speedometer.Speedometer.Measure` | src/connections/speedometer.rs:67-91 | afterwards the queue is exactly the history within the window and the total its sum, so no subtraction saturated; the speed is taken over that span |
| `Speedometer.RecentFromFirst` | src/connections/speedometer.rs:70-80 | with monotone time, once an entry is recent all later ones are |
| `Speedometer.RecentDrops` | src/connections/speedometer.rs:70-80 | dropping expired entries from the front loses none that is recent |
| `Speedometer.RecentIff` | src/connections/speedometer.rs:70-80 | a sample counts as recent exactly if it is no older than the window |
| `Speedometer.RateIs` | src/connections/speedometer.rs:82-91 | bytes per second, rounded down, over a span of at least a millisecond |
| `Base64.DecodeEncode` | shared/src/announce_address.rs:128-167 | encoded bytes decode to themselves |
| `Base64.EncodeDecode` | shared/src/announce_address.rs:16-125 | only canonical text decodes: whatever decodes is the encoding of the result |
| `Base64.AlphabetIs` | shared/src/announce_address.rs:128-167 | the values of the characters, and that no other character has one |
| `Base64.SextetsAreBits` | shared/src/announce_address.rs:128-167 | characters hold the bits of the bytes in order, most significant first |
| `AnnounceAddress.DetailsRoundTrip` | shared/src/announce_address.rs:128-167 | the suffix bytes of each type have its length and parse to the details, scope aside |
| `AnnounceAddress.ParsePrinted` | shared/src/announce_address.rs:16-167 | what a printed address parses to, and the length of the printed form |
| `AnnounceAddress.PrintedIs` | shared/src/announce_address.rs:128-167 | the printed form: name, port and address in Base64, and a digit for the kind of NAT and of address |
| `AnnounceAddress.ParseFailsIff` | shared/src/announce_address.rs:16-125 | which text fails to parse and how, and which makes the parser panic |
| `AnnounceAddress.AddressRoundTripIff` | shared/src/announce_address.rs:16-167 | with any name, an address parses back if and only if it has no IPv6 flow information or scope |
| `AnnounceAddress.PrintParsed` | shared/src/announce_address.rs:16-167 | any text that parses prints back to the same text |
| `AnnounceAddress.PrintInjective` | shared/src/announce_address.rs:128-167 | equal printed forms mean equal names and details, scope aside |

## Left out

- QUIC, TLS, certificates, STUN, mDNS, the web interface, the command line and the HTTP client calls: plumbing over libraries this project does not describe. Peer names and connection identities are opaque.
- The hole punch to a peer with an unknown port (src/connections/discovery/hole_punch.rs:365-515): a probabilistic search.
- UTF-8 validation, bincode and case folding: paths and payloads are byte strings, whether a payload deserializes is a parameter, and queries have no search term.
- Database failures and flushing; a single tree operation does not fail and is atomic, and a tree's change events arrive in order.
- A debug build panics where a 64-bit sum overflows; the model wraps. Counters that cannot get near their width (files added, alias numbers, bytes of one transfer, the speedometer's total) are unbounded.
- Two calls of `Shares` methods are not interleaved with each other.
- A directory walk is taken to report each file once, by a relative path of listing names, no file inside another (`ShareIndex.WalkOfTree`).
- `from_completed_requests_db_key_value`: not called.
- Fresh random request ids: a hypothesis where it matters, not proved.
- Download.Download: the random id, the peer lookup and the clock are parameters; the listing's transport is that of `Framing`.
- Transfer.DownloadDir.Write: the loop ignores how many bytes a write takes (src/peer.rs:225-228). The model assumes that an accepted block is taken whole, as the file's buffer is larger than a block; a short write would leave a gap and the file would stop being a prefix. That a block may be lost after it was accepted, and that a lost last block is reported to nobody since the file is never flushed, is modelled.
- Transfer.AttemptsKeepPrefix: an accepted block lands before the next attempt reads the length of the file (src/peer.rs:392-396), or never. The file is not flushed or awaited when an attempt ends, so it could be later; what that does is `Transfer.LateBlockIff`.
- Transfer.DownloadDir.Receive: progress events and the final total in them are left out.
- Transfer.DoRead: a failing read ends the stream like the end of the file, as in the code, so a receiver cannot tell; events to the interface are left out.
- PeerWorker.ProcessKeeps: one worker at a time writes a file. When a connection is replaced (src/connections/mod.rs:400-438) the old worker is not stopped and does not look at the connection between a successful download and marking it, so it can overlap the new one and both can complete the same file; what that does to the accounting is `WishlistStore.SecondCompletionBreaks`. Two peers with the same path write one file; see `Transfer.SharedPathWholeIff`. An unresolved read's zero byte is excluded by the hypothesis that the data comes from the file.
- Wishlist.WishList.AddRequestedFile: a call is one step, also in `PeerSystem`. In the program each insert and removal is one, and calls of different tasks can interleave between them; what that does to an addition is `WishlistStore.OvertakenAddIff`. Two workers cannot update the progress of one request at once unless they overlap as described above.
- RegistryTasks.SharedState.RegisterPeer: a connection may arrive at any time, not only from an attempt or call that leads to it, so more runs are covered than can occur. Gossip, the peer's details and its request task are not part of the entry.
- RegistryTheorems.QuietRun: back-off delays and jitter are left out; every order of steps is allowed.
- HolePunch.HolePunchPeer: packets of an earlier run are assumed gone; time appears only as the deadline event.
- Speedometer.Speedometer.Measure: speeds are whole bytes per second over milliseconds; floating-point rounding is not modelled.
- AnnounceAddress.ParsePrinted: text that makes the parser panic is modelled as such and excluded from the round trips; which text that is, says `AnnounceAddress.ParseFailsIff`.
- The index cache of a peer: it can hold a truncated answer when its reader goes away, so no claim about its contents is made. Announce-address bookkeeping and the upload queue pass values on unchanged.
