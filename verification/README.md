# Verified model of the hub's storage, telemetry and metadata code

This project models the stateful parts of an edge hub that receives content over satellite, keeps it in folders,
reports what came and went to two telemetry channels, and serves folder listings. Everything that works by changing
state step by step is a class or a method over arrays and fields, proved against functions on values; the laws are
proved about those functions.

- **Folder tree** (`Paths`, `Forest`, `PackedLists`, `Buckets`, `Pruning`, `Cuts`, `FileSys`, `Expiry`, `TreeLaws`). A
  folder hierarchy is kept in three flat key-value buckets. `Forest` is the finite rooted tree, `Buckets.IsTree` says
  that buckets store it, and `FileSys.FileSystem` performs creation, deletion, pruning and listing as the separate
  transactions of the source. Its ghost field `committed` records the buckets after every transaction; `Valid()` says
  that each of these states holds a tree, so a stop between any two transactions is covered. `Expiry` is the walk that
  deletes expired folders from the tree it is walking; `Cuts` says what it leaves, and what a single deletion leaves,
  when some directories cannot be removed.
- **Telemetry outbox** (`OutboxModel`, `Payload`, `Sources`, `Batching`, `Accounts`, `Fates`, `OutboxSteps`, `Rounds`,
  `Outbox`, `OutboxLaws`). Each pending content entry must be accepted by two channels. `Outbox.Outbox` sends batches of
  pointers into shared records (indices into an `array`), with other goroutines putting entries between any two steps
  and any send outcome. Its ghost field `points` records the bucket and what had been sent at every step; `Valid()` says
  that at each of them the entry stored or last deleted under every content key has been accepted by each channel since
  it was put, or is stored with that channel still due. `Sources` ties each of these entries to the put it comes from,
  and says which puts are lost and by what. `Payload` says what a message tells of an entry and under which key the
  entry is stored; `Accounts` keeps the handler's copies, the messages sent and the bucket in account; `Fates` adds what
  becomes of entries put over those the handler holds; `Rounds` carries both over a whole cycle, so that what is stored
  under every key afterwards follows from the snapshot, the puts and the answers.
- **Satellite index** (`IndexModel`, `SatelliteReports`, `SatelliteIndex`). One poll as a transformation of two maps and
  a sequence of reports put into the outbox, its invariant, exactly when polling settles, what the reports say, and what
  a stop loses.
- **Wire format** (`WireFormat`, `MetadataServer`). The nested length-prefixed listing, a decoder for it, and the
  partial-write and chunked-read loops that produce it.
- **Key cache** (`KeyManager`) and **checksum log** (`HashLog`).

Assumptions, all visible as `requires` clauses: a node id drawn for a new folder is in no bucket (`Fresh`); folder
names are non-empty and free of slashes where path strings are split again (`CleanNames`); operations on the tree do
not overlap; message sizes and the key cache's capacity are at least one (the source panics or never flushes
otherwise); keys of different kinds of pending entries do not collide (`kindOf`, `NoClash`); entries are put with no
retries, contents with both flags up (`OutboxModel.Fresh`), as the source puts them. A put of the poller in the middle
of a cycle is one of `Outbox.Outbox.Others`; seen from the poller, whole rounds of the handler and puts of others come
between any two of its puts (`Outbox.Outbox.Meanwhile`).

Answers of the outside world are parameters or arbitrary choices: send outcomes and partial writes are arbitrary, the
clock, the deadlines, the drawn node ids, the catalogue and the directories that cannot be removed are parameters.

The comment at `filesys/filesys.go:454` calls the folder tree code no longer in use, but the folder deletion and
download calls (`handle_method_calls.go:114-227`), the leaf listing (`repository.go:195`) and the file routes still use
it; only the start of the expiry sweep is commented out (`hub.go:147`). The comment at `route_handler.go:315` promises
the number of bytes written on failure; a chunk that was only partly written is not counted, so
`MetadataServer.Response.WriteFile` states a lower bound there.

## Properties that fail, and exactly when

- Exactly-once delivery: after a round, a channel that accepted an entry which no put has replaced is still due in the
  bucket, and will be sent it again, exactly when some channel refused the entry before some channel accepted it
  (`Outbox.Outbox.SendRequestInBatches`, `Accounts.DueAgainIff`; over a cycle `Outbox.Outbox.HandleOnce`). A stop adds
  the entries a channel has accepted that are not finished and have not been refused since (the last clause of
  `Outbox.Outbox.SendRequestInBatches`, `OutboxSteps.MorePoints`, `OutboxLaws.StopAfterFirstAcceptance`).
- A put is never lost: a content put over an entry the handler holds a copy of is still stored after the round exactly
  when no message about the key was dealt with after the put, or all those were accepted while an earlier one had been
  refused; a request put over one the handler is sending exactly when no message about the key was left to be dealt
  with, or the one sent had been refused and put back before (`Fates.PutSurvives` in
  `Outbox.Outbox.SendRequestInBatches` and `Outbox.Outbox.HandleOnce`); otherwise it leaves no trace. Over any number of
  cycles no content put is lost in any other way (`Outbox.Outbox.HandleApiRequests`). For an entry due on both channels:
  put before the first answer it is always lost, put between the answers it stays exactly when the first was a refusal
  and the second an acceptance (`OutboxLaws.PutStoredIff`).
- Every new content is reported: a stop between the index transaction and the report (`SatelliteIndex.OneUnreported`)
  loses the report for good exactly when the content's satellite id is listed or the catalogue gives the id to another
  content not yet known (`SatelliteIndex.LostDownloadIff`).
- Every dropped content is reported: a stop from the first deletion on loses the deletions not yet reported,
  `SatelliteIndex.LostDeletions`.
- A deletion that fails is made up for later: a sweep after one that met directories which could not be removed leaves
  what it would have left anyway exactly when no folder was left empty (`Cuts.CatchesUpIff`, `Cuts.LeftEmpty`).
- One poll settles the index: `IndexModel.OnePollSettlesIff`; two polls always do: `IndexModel.SettlesIffClean`.
- Known contents are the mapped contents: `IndexModel.SyncOrphansIff`, `IndexModel.HalfPruneOrphans`; orphans are never
  cleaned up: `IndexModel.OrphansStay`.
- A failed unlinking transaction is harmless: the buckets still hold a tree exactly when the folder is marked as lying
  on the satellite storage or its directory cannot be removed (`FileSys.FileSystem.DeleteFolder`).
- A stored checksum pair reads back: `HashLog.HashFile.GetHashsum`, `HashLog.OnePairReadsBackIff`.
- Deletion of the empty path, which resolves to home, never leaves a tree: `TreeLaws.HomeMustNotBeDeleted`. This
  concerns the method's own interface; every caller in the repository splits a string, which never gives an empty path.

## Model

| member | source | states |
|---|---|---|
| `Paths.HierarchyOfPathString` | delete_content.go:54-91 | Trimming and splitting the string built from a path gives the path back if and only if the path is non-empty, its names are free of slashes, and its outer names are not empty (or it is the single empty name) |
| `Paths.SplitJoin` | delete_content.go:91 | Splitting at slashes undoes joining with slashes, for every non-empty list of slash-free names |
| `Paths.JoinSplit` | delete_content.go:91 | Joining with slashes undoes splitting at slashes, for every string |
| `PackedLists.PackedAt` | filesys/filesys.go:890-897 | The i-th 36-character slot of a stored list is the i-th node |
| `PackedLists.PackConcat` | filesys/filesys.go:498 | Appending a node's characters to a stored list appends the node |
| `PackedLists.PackInjective` | filesys/filesys.go:485-505 | The stored characters determine the list of nodes |
| `PackedLists.RemoveNode` | filesys/filesys.go:1078-1086 | The slot-copying loop over stored characters yields exactly the stored form of the list without the node, the others in order |
| `Buckets.TreeUnique` | filesys/filesys.go:855-874 | The buckets determine the folder tree: no two trees are stored by the same buckets |
| `Buckets.BucketsFormATree` | filesys/filesys.go:456-505 | What is reachable from home is a finite rooted tree: home is its own parent; each listed child is a key, points back, is named, differs in name from its siblings and is listed once; each folder is in its parent's list; climbing parents from it reaches home in as many steps as its depth |
| `Buckets.TreeInsert` | filesys/filesys.go:485-505 | The one transaction that stores a node under its parent and lists it there turns the stored tree into the tree with one more leaf, last among its siblings |
| `Buckets.TreeDrop` | filesys/filesys.go:1072-1092 | The one transaction that takes a node out of its parent's list removes exactly its subtree from the stored tree, and what hung below the node is still stored, detached |
| `FileSys.FileSystem.Open` | filesys/filesys.go:456-483 | Opening a new bucket file, or one left by a stop after any transaction, gives a valid tree whose home folder is named home; an existing tree is kept as it was |
| `FileSys.FileSystem.GetNodeForPath` | filesys/filesys.go:876-907 | The scan over stored child lists finds exactly the node to which the path leads in the tree, and none if there is none |
| `FileSys.FileSystem.GetChildrenNames` | filesys/filesys.go:909-930 | Names of all children in stored order; fails exactly if the node or one child's name is missing |
| `FileSys.FileSystem.InsertNode` | filesys/filesys.go:485-505 | Succeeds exactly if the parent exists and the transaction commits, and then inserts the leaf in the tree; otherwise the whole transaction is rolled back; the tree invariant holds after it |
| `FileSys.FileSystem.AddFolder` | filesys/filesys.go:951-964 | The name transaction followed by the tree transaction inserts the leaf; if the first does not commit nothing changes, if the second does not the name alone is left; after each of the two the buckets hold a tree |
| `FileSys.FileSystem.ParentForNew` | filesys/filesys.go:935-949 | A folder may be created exactly if its parent path resolves and no child there has the name |
| `FileSys.FileSystem.CreateFolder` | filesys/filesys.go:932-971 | Whole new state in every case: unknown parent, taken name or an uncommitted name transaction changes nothing; an uncommitted tree transaction leaves the new node's name alone; otherwise the leaf is inserted and named, also when making the directory fails afterwards; every intermediate state holds a tree |
| `FileSys.FileSystem.CreateDownloadNewFolder` | filesys/filesys.go:604-665 | Whole new state in every case: the leaf is inserted and named exactly if the parent exists, the name is free, the directory was made and filled and both transactions commit; otherwise at most the new node's name is left behind; it is marked as lying on the satellite if asked, and a marking that does not commit is reported with the folder in place; every intermediate state holds a tree |
| `FileSys.FileSystem.DeleteEntries` | filesys/filesys.go:1003-1044 | Removes a node's entries from the three buckets, one transaction each; for a detached node each leaves the tree as it was |
| `FileSys.FileSystem.DeleteNodeSubtree` | filesys/filesys.go:990-1062 | Terminates and removes exactly the entries of a folder and of everything below it, whatever directories cannot be removed; if the folder is detached every intermediate state holds the same tree; reports failure exactly for the folder's own directory |
| `FileSys.FileSystem.UnlinkFolder` | filesys/filesys.go:1072-1092 | If the transaction commits, the tree afterwards is the tree without the subtree and only the parent's child list has changed, its other entries in order; if it does not, nothing has changed |
| `FileSys.FileSystem.DeleteFolder` | filesys/filesys.go:1064-1115 | Unknown path: nothing changes. If the unlinking transaction commits, the buckets are exactly the old ones with the node taken out of its parent's list and the subtree's entries gone from all three buckets (only unlinked if its directory cannot be removed), and every intermediate state holds a tree. If it does not commit, the buckets still hold a tree afterwards if and only if the folder is marked as lying on the satellite or its directory cannot be removed; otherwise the subtree's entries are gone and success is reported |
| `FileSys.DeletionTrims` | filesys/filesys.go:1064-1115 | After a completed deletion exactly the folders that left the tree have lost their entries in all three buckets; entries outside the tree are untouched |
| `FileSys.FileSystem.RecursiveDeleteFolder` | filesys/filesys.go:1117-1144 | On success the tree is the old one with the folder dropped and every ancestor this empties pruned, and exactly those folders lost their entries; it fails if and only if some folder on the path that has to go has a directory that cannot be removed; then the folders below that one on the path are gone with exactly their entries, and it has just been unlinked, its own entries still there. In either case the tree is the one `Cuts.Removal` grafts together, and exactly the folders it names are out of the tree with their entries left; every intermediate state holds a tree |
| `FileSys.DropFirst` | filesys/filesys.go:1118-1121 | The first deletion either leaves only pruning to do, having removed exactly its folders' entries, or stops at a folder that has to go and cannot |
| `FileSys.DropNext` | filesys/filesys.go:1123-1138 | Deleting the next empty ancestor keeps the outcome aimed at and the account of removed entries, or stops at a folder that has to go and cannot |
| `FileSys.PruningEnds` | filesys/filesys.go:1138-1141 | Stopping at the first ancestor that still has a child (or at home) is exactly complete pruning, and leaves no entries behind |
| `Cuts.RemovalStep` | filesys/filesys.go:1117-1144 | Deleting a folder with pruning either ends with that folder unlinked, its subtree's entries left, or comes to dropping it and pruning its parent |
| `Cuts.GraftConcat` | filesys/filesys.go:1123-1138 | Pruning from deep below is pruning up to a folder on the way and on from there, also where it gets stuck in between |
| `Pruning.DropAndPruneSweeps` | filesys/filesys.go:1117-1144 | Deleting a folder with upward pruning is the expiry sweep in which that folder alone has expired |
| `Pruning.DropAndPruneKeeps` | filesys/filesys.go:1117-1144 | A folder survives a pruning deletion if and only if some leaf at or below it is not at or below the deleted folder |
| `Pruning.DropAndPruneLeaves` | filesys/filesys.go:1117-1144 | A pruning deletion creates no leaf: the leaves afterwards are the earlier ones minus those at or under the deleted folder |
| `TreeLaws.CreationResolves` | filesys/filesys.go:932-971 | After creating a path it resolves to the new node and every other path resolves as before |
| `TreeLaws.DeletionResolves` | filesys/filesys.go:1064-1115 | After deleting a path nothing at or below it resolves and every other path resolves as before |
| `TreeLaws.DeletionUndoesCreation` | filesys/filesys.go:932-971 | Deleting a folder just created restores the tree |
| `FileSys.DeletionNeedsTheUnlink` | filesys/filesys.go:1093-1110 | For every tree and every folder in it: removing the subtree's entries without having unlinked the folder leaves no tree |
| `TreeLaws.HomeMustNotBeDeleted` | filesys/filesys.go:1076-1088 | For every tree: unlinking the home node, to which the empty path resolves, destroys the tree; a fact about the method's own interface, since no caller passes an empty path |
| `FileSys.FileSystem.PreOrderTraversal` | filesys/filesys.go:552-570 | The path strings of the leaves at or below a folder, in pre-order of the stored lists |
| `FileSys.FileSystem.GetLeavesList` | filesys/filesys.go:572-603 | For the empty path the path strings of all leaves without the home name in front; otherwise those at or below the folder, prefixed with its own name; none if the path does not resolve |
| `FileSys.ListedLeavesResolve` | filesys/filesys.go:572-603 | Splitting a string listed for the empty path and resolving it gives back that very leaf, when names are clean |
| `Pruning.LeavesArePreorder` | filesys/filesys.go:552-570 | The listing is the pre-order of the tree restricted to its leaves |
| `Pruning.LeavesOnce` | filesys/filesys.go:552-570 | Every leaf is listed, exactly once, and nothing else is |
| `Pruning.LeavesResolve` | filesys/filesys.go:552-570 | Each listed path resolves to the leaf it is listed for |
| `Expiry.CheckDeadlineAndDelete` | delete_content.go:82-113 | The folder is deleted exactly if its deadline can be read, is not negative and is less than the clock's time; fails exactly on a deadline that cannot be read or is negative, and on a deletion that needs a directory that cannot be removed; the deleted folder goes with pruning and its node is gone, or the deletion has stopped at the first such directory with the tree and the entries as stated for the deletion; otherwise nothing changes; the path string split again is the folder's path |
| `Expiry.VisitChild` | delete_content.go:48-66 | One step of the walk, whatever directories cannot be removed: after success the walk stands behind the child, whose part of the tree has been swept, even though the child, the folder or its ancestors may have been deleted meanwhile; after a failure the sweep of this folder's children is over and the tree is already what the sweep makes of it |
| `Expiry.Traverse` | delete_content.go:37-69 | Walking a snapshot of a folder's children while deleting replaces those children by their sweep and prunes the folder and its ancestors if the last of them has been deleted, as far as directories can be removed; exactly the folders that went lost their entries, but for those unlinked only; a folder already gone is skipped |
| `Expiry.DeleteExpired` | delete_content.go:19-36 | One round over the whole device, each folder's deadline compared with the time read when it is looked at: whatever directories cannot be removed, the tree left is the reference sweep's, exactly the missing folders but those unlinked only lose their entries, and no folder goes that a plain sweep would keep; if every directory can be removed it is the plain sweep, and with all deadlines read and not negative a folder keeps its entry if and only if for some original leaf at or below it the clock's time is at most the deadline of every folder from the root down to that leaf; every intermediate state holds a tree |
| `Expiry.WalkStep` | delete_content.go:48-67 | From the state between two siblings: a visit that succeeds leads to the state behind the child, one that fails to the state in which the walk of these siblings ends |
| `Cuts.SweepCutFree` | delete_content.go:37-69 | Where every directory can be removed the reference sweep is the plain sweep and leaves no entries of missing folders |
| `Cuts.SweepCutKeeps` | delete_content.go:37-69 | Directories that cannot be removed lose no folder that a plain sweep keeps |
| `Cuts.CatchesUpIff` | delete_content.go:37-69 | Sweeping again by the same clock, once the directories can be removed, leaves what a plain sweep would have left if and only if the first sweep turned no folder with children into a leaf |
| `Cuts.LeftEmpty` | delete_content.go:37-69 | A concrete case: a folder whose only child has expired but could not be removed is left empty, and sweeping again leaves it, where a plain sweep would have removed both |
| `Pruning.SweepSurvivors` | delete_content.go:37-69 | With all deadlines read and not negative, a folder survives the sweep if and only if for some original leaf at or below it the clock's time is at most the deadline of every folder from the top level down to that leaf |
| `Pruning.SweepKeepsPlaces` | delete_content.go:37-69 | Survivors keep all their ancestors, and no inner folder becomes a leaf |
| `Pruning.SweepTwice` | delete_content.go:37-69 | A second sweep by the same clock changes nothing, readable deadlines or not |
| `Outbox.Outbox.Open` | cloudapihandler/api_handler.go:94-99 | A bucket left behind by a stop at any of the recorded moments can be opened again with the invariant intact, including from which puts its entries come and which puts were lost |
| `Outbox.Outbox.Put` | filesys/filesys.go:393-410 | A put by another goroutine is stored whole and keeps the invariant: every entry stored or last deleted under a content key has been accepted by each channel since it was put or is stored with that channel due, stored contents are due on some channel, retry counts are the refusals since the put; and it comes from the key's last put, unless that one was overtaken by an answer and lost |
| `Outbox.Outbox.Others` | satdata_mstore.go:247-265 | Any number of fresh puts between two steps keep the invariant, remove no key and leave every key nobody put as it was; under every key somebody put, the last put is what is stored; so at every moment in between |
| `Outbox.Outbox.Meanwhile` | cloudapihandler/api_handler.go:105-132 | Whatever rounds of the handler and puts of others come between two puts of a goroutine keep the invariant and only extend what was put and sent |
| `OutboxModel.PutKeepsGood` | satdata_mstore.go:333-357 | A fresh entry put at any moment keeps the outbox invariant, although for its key only acceptances and refusals from then on count, whatever the handler holds at that moment |
| `OutboxModel.SendKeepsGood` | cloudapihandler/api_handler.go:250-257 | A send with either outcome, before its effect on the bucket, keeps the invariant |
| `OutboxModel.SendKeepsCopies` | cloudapihandler/api_handler.go:250-257 | A send with either outcome keeps the handler's copies right: a flag is down only if the channel has accepted the copied entry since that entry was put, retries are the refusals since then; if accepted, the channel has accepted every copy of the batch since then |
| `OutboxModel.DeleteKeepsGood` | cloudapihandler/api_handler.go:149-156 | Deleting the entries an accepted batch has finished keeps the invariant: each channel has accepted the entry the copy was taken of since that entry was put |
| `OutboxModel.WriteBackKeepsGood` | cloudapihandler/api_handler.go:158-168 | Writing a refused batch back with one more retry keeps the invariant, whatever was put over the copies meanwhile; every retry count is again exactly the refusals since its entry was put |
| `Outbox.SetTelemetryFlag` | cloudapihandler/api_handler.go:528-539 | Exactly the records the batch points at lose the channel's flag, cloud or IoT; all other records and fields are unchanged |
| `Outbox.IncrementRetryCount` | cloudapihandler/api_handler.go:566-571 | Exactly the records the batch points at get one more retry |
| `Outbox.GetIdsToBeRemoved` | cloudapihandler/api_handler.go:134-145 | Exactly the ids in the batch whose records have neither flag left |
| `Outbox.Outbox.AddContents` | filesys/filesys.go:372-391 | Afterwards each entry of the batch is stored as the copy, every other key as before |
| `Outbox.Outbox.AddBackOrDelete` | cloudapihandler/api_handler.go:147-170 | Accepted: flags down and exactly the finished entries deleted; refused: retries up and exactly the batch's copies written back; what is stored, or was last deleted, under those keys from then on counts as the entry the handler had copied; the invariant holds after either |
| `Outbox.Outbox.Flush` | cloudapihandler/api_handler.go:246-257 | One batch sent and answered with other goroutines putting before and after: exactly one message with the batch's ids and payload is added; until the answer is dealt with nothing changes but by others' puts, and then exactly the finished entries are deleted or the copies written back; every recorded moment is one of these and keeps the invariant |
| `Payload.LookupSays` | cloudapihandler/api_handler.go:228-231 | Looking a property up gives the value of the last property with the key, and the empty string if there is none |
| `Payload.ResponseMap` | cloudapihandler/api_handler.go:228-231 | The loop over the properties computes that lookup for every key |
| `Payload.PayloadTells` | cloudapihandler/api_handler.go:215-242 | Field by field: on both channels the time is the entry's and the content id its id, for a deletion the id without DL_ in front; on IoT the broadcast command id and the satellite id are the values of the last commandId and sesCid properties, and the location and size those of the last such properties for a download and empty for a deletion; a filter update's message carries the device's id and the last commandId, isFailed and failureReason values, a provisioning request's the device's id |
| `Payload.ContentOf` | cloudapihandler/api_handler.go:309-342 | What is gathered for a channel is what the entry's fields and properties say, downloads and deletions alike |
| `Payload.KeyIs` | cloudapihandler/api_handler.go:457 | A filter update's bucket key is the value of its last commandId property, any other entry's its id |
| `Payload.RequestOf` | cloudapihandler/api_handler.go:421-462 | A request's message and the bucket key it is put back and deleted under are what its fields and properties say |
| `Payload.CommandsApart` | handle_commands.go:121-133 | Two filter updates of one device with different command ids are stored side by side |
| `Outbox.Outbox.Gather` | cloudapihandler/api_handler.go:217-244 | An entry joins the batch of a channel exactly if it is due on it, with a pointer to it and a content that tells of it field by field |
| `Outbox.Outbox.VisitEntry` | cloudapihandler/api_handler.go:213-270 | One turn of the loop: the entry joins the batch of each channel it is due on, with a content that tells of it, and full batches are flushed; both channels' batches remain an exact cut of what was due so far, and every message sent tells, field by field, of the entries whose keys it carries |
| `Outbox.Outbox.SendRequestInBatches` | cloudapihandler/api_handler.go:205-398 | Whatever the answers and whatever others put, also over entries whose copies are held: on each channel the ids and payloads sent are exactly the entries due on it at the start, in order, cut into batches, and each content in a message tells of the entry whose id stands at its place, field by field: time, content id, command id, satellite id, location and size; keys outside the group change by puts only; no key appears that nobody put. For every entry of the group: the last entry put over it is what is stored if and only if no message about the key was dealt with after the put, or those were all accepted and an earlier one had been refused; if none put over it is stored, the entry is left exactly as its answers demand: stored if and only if some channel it was due on did not accept it, its retries grown by the refusals, a flag down exactly if its channel accepted before the last refusal, and a channel that accepted it due again if and only if a refusal came before an acceptance. The same account, answer by answer, holds at every moment on the way, at most one message ahead; a stop there leaves an accepted channel due if and only if the entry is not finished and no refusal came after the acceptance |
| `Accounts.TallyStep` | cloudapihandler/api_handler.go:147-170 | Answering a batch keeps the copies in step with the messages: a flag is down exactly if the channel has accepted the entry, retries count the refusals over both channels |
| `Accounts.HandledStep` | cloudapihandler/api_handler.go:147-170 | Dealing with one more answer leaves the stored entry exactly as all answers so far demand, flag by flag |
| `Accounts.HandledAnew` | cloudapihandler/api_handler.go:147-170 | Where an answer overwrites or deletes what others have put meanwhile, what is left is exactly what all answers so far demand of the copied entry |
| `Fates.EntryAnswered` | cloudapihandler/api_handler.go:147-170 | Dealing with one more answer, to a message about the entry or not: an entry put over the copy is stored if and only if the key's messages dealt with since were all accepted and left the copy unfinished; if none is stored, what is left of the copied entry is what the answers demand |
| `Fates.EntryWaits` | cloudapihandler/api_handler.go:246-257 | Puts of others, before or after a message has gone out, keep this account: the last put is stored, and if none is nobody has put |
| `Fates.OutlivesIffRefused` | cloudapihandler/api_handler.go:205-301 | For an entry that goes out once on every channel it is due on, the account answer by answer comes to this: an entry put over it survives if and only if no message about it is left, or all that are left are accepted and an earlier one was refused |
| `Fates.OutcomeStays` | cloudapihandler/api_handler.go:186-203 | What has become of an entry and of puts over it stays so while others put and messages about other entries are dealt with, and a later put is stored |
| `Fates.RequestEnds` | cloudapihandler/api_handler.go:515-525 | After the accepted requests have been deleted: an entry put over a request is stored if and only if the request had been refused, and put back, before that put; if none is stored, the request is gone if accepted and else stored with one more retry |
| `Accounts.DueAgainIff` | cloudapihandler/api_handler.go:147-170 | For an entry that went out once on every channel it was due on: a channel that accepted it is still due in the bucket if and only if some channel refused it before some channel accepted it; the success after a failure is not written back |
| `Batching.AllSentOnce` | cloudapihandler/api_handler.go:205-301 | Batches that cover what was due on each channel carry every entry exactly once on each channel it was due on and on no other |
| `Batching.BatchesCover` | cloudapihandler/api_handler.go:205-301 | Batches put together are the input; none is empty or longer than the size; all but the last are exactly of the size |
| `Batching.FillEnd` | cloudapihandler/api_handler.go:273-296 | Flushing full batches on the way and the rest at the end yields exactly those batches |
| `Batching.LaneFlush` | cloudapihandler/api_handler.go:246-270 | Sending a full batch and changing the shared records keeps the channel's ids, payloads and pointers in step |
| `Batching.LaneOther` | cloudapihandler/api_handler.go:246-270 | An answer on one channel, which changes shared records, leaves the other channel's pending batch and its exact cut alone |
| `Batching.LaneAdd` | cloudapihandler/api_handler.go:217-244 | Adding an entry to a batch extends the exact cut by that entry if it is due on the channel, and not otherwise |
| `Outbox.Outbox.SendRequest` | cloudapihandler/api_handler.go:446-457 | Exactly one message for the request is sent, with puts by others before it and between it and the requeue; if refused, the request is then stored with one more retry under its own key, the value of the last commandId property for a filter update and the id for a provisioning, also over an entry put in between; other keys change by puts only; the account of requests and of entries put over them, and the invariant, go on |
| `Outbox.Outbox.Requeue` | cloudapihandler/api_handler.go:500-509 | A refused request is stored under the key its last commandId property, or its id, says, with one more retry and otherwise as it was, whatever was put there since it went out; an accepted one stays; the moment is recorded and keeps the invariant |
| `OutboxSteps.DirectStep` | cloudapihandler/api_handler.go:446-457 | Putting a refused request back, or leaving an accepted one, leads from the account with one request under way to the account with one more dealt with, for its own key, the other requests and the puts over them |
| `Outbox.Outbox.HandleDirect` | cloudapihandler/api_handler.go:415-473 | One message per request, in order, telling of the request field by field; other keys change by puts only; an entry put over a request, at any moment, also between a refusal and the requeue, is stored if and only if the request had been refused, and put back, before that put; if none is stored, an accepted request is gone and a refused one stored with one more retry. Of the requests nobody has put over, each is stored under its own command id, or device id for a provisioning, with one more retry if refused, and is gone from there if accepted; no key appears that nobody put |
| `OutboxSteps.RequestKept` | cloudapihandler/api_handler.go:446-473 | A request that nobody has put over is gone from under its key if its message was accepted and is stored there with one more retry if not |
| `Outbox.Outbox.DeleteAccepted` | cloudapihandler/api_handler.go:518-525 | The deletion at the end removes exactly the accepted keys, although others may have put meanwhile |
| `Accounts.DirectDone` | cloudapihandler/api_handler.go:415-526 | A request listed once, gone exactly when accepted, is accounted for by the messages: gone if and only if a message carrying its key was accepted, otherwise stored with one more retry |
| `Outbox.Outbox.GetPendingApiRequests` | filesys/filesys.go:315-338 | Every stored entry is in the snapshot, once |
| `Outbox.GetSegregatedItems` | cloudapihandler/api_handler.go:172-184 | Each kind's group is exactly the entries of that kind in order; kinds without entries have no group |
| `Rounds.SnapshotOk` | cloudapihandler/api_handler.go:111-125 | Any snapshot's group may be handled: its copies agree with the bucket and with where its entries came from |
| `Outbox.Outbox.ProcessRequests` | cloudapihandler/api_handler.go:186-203 | In whatever order the kinds are handled: the invariant holds, no key appears that nobody put, keys outside the snapshot change by puts only, and of every entry of the snapshot and every entry put over it just what the messages demand is left |
| `Outbox.Outbox.HandleKind` | cloudapihandler/api_handler.go:186-203 | Downloads and deletions go out in batches of their own sizes; of every entry of the group and every entry put over it just what the messages demand is left |
| `Outbox.Outbox.HandleOnce` | cloudapihandler/api_handler.go:105-132 | One cycle over all four kinds, with others putting at any time after the snapshot, also before the first kind and into an empty bucket. The bucket afterwards is determined at every key: where nothing was stored at the snapshot the last put is stored; of an entry of the snapshot the last entry put over it is stored if and only if it was to survive the key's messages, and if none is, just what the messages demand is left; whatever is left that was not put since has been refused. Every content in every message tells, field by field, of what was stored at the snapshot under the key the message carries with it. Of the contents put in the cycle that are the last of their key, those recorded as lost are exactly those no longer stored |
| `Rounds.NextKind` | cloudapihandler/api_handler.go:186-203 | Handling one kind leaves what was said of the kinds already handled true, of their entries and of entries put over them, because its messages are about other keys |
| `Rounds.KindStaysOk` | cloudapihandler/api_handler.go:186-203 | Puts of others and the handling of other keys leave a group ready to be handled, its entries stored as copied or replaced by the last put |
| `Accounts.DoneAmongOthers` | cloudapihandler/api_handler.go:186-203 | What was said of an entry stays true when messages about other entries come before or after, whatever their answers |
| `Outbox.Outbox.HandleApiRequests` | cloudapihandler/api_handler.go:105-132 | Over any number of cycles and any answers, with any puts before, between and in the cycles, also into an empty bucket: in the end and at every recorded moment, for every content ever put, the last put of its key has been accepted by each channel since it was made or is stored with that channel due; or it was overtaken, in the cycle it was made in, by an answer to a message about the key dealt with after it, is not stored, and then an earlier put of the key is accounted for in that way. Whatever is left in the end was put after the last snapshot or refused since; with every send accepted and nothing put the bucket is empty |
| `Sources.OnlyOvertakenLost` | cloudapihandler/api_handler.go:147-170 | No put is lost but those overtaken: of each content ever put the last put of its key is accounted for, or it was overtaken and an earlier one is |
| `Sources.PutKeepsSourced` | filesys/filesys.go:393-410 | After a put the entry stored under its key comes from that put, and what the handler holds and has lost is as before |
| `Sources.AnswerKeepsSourced` | cloudapihandler/api_handler.go:147-170 | Dealing with an answer makes lost exactly the puts it overwrites or deletes, and these were made in this cycle before the answer was dealt with; whatever it leaves under the batch's keys comes from where the handler's copies do |
| `Sources.RoundKeepsSourced` | cloudapihandler/api_handler.go:105-132 | Taking new copies, or starting again without any, keeps the account of which put each entry comes from |
| `OutboxLaws.StopAfterFirstAcceptance` | cloudapihandler/api_handler.go:149-156 | A stop after an accepted first answer leaves that channel due: the lowered flag exists only in the handler's copy |
| `OutboxSteps.MorePoints` | cloudapihandler/api_handler.go:246-270 | Every moment of a flush is accounted for by the answers dealt with before it, or with it, entry by entry and put by put; a stop there leaves a channel that accepted an entry due if and only if the entry is not finished and no refusal came after the acceptance |
| `OutboxLaws.PutStoredIff` | cloudapihandler/api_handler.go:147-170 | An entry put over a copied content due on both channels is stored after the round if and only if it was put after the second answer, or between the two answers, the first being a refusal and the second an acceptance; put before both it is always lost |
| `OutboxLaws.SendAssetmapInBatches` | cloudapihandler/api_handler.go:602-651 | Succeeds if and only if every asset is readable and no batch is refused; then the batches put together report every asset exactly once and are full but for the last; otherwise what was sent still reports readable assets, none twice, in bounded batches |
| `IndexModel.HalfPruneKeepsIndexed` | filesys/filesys.go:283-297 | A stop between the two deleting transactions keeps the index invariant |
| `IndexModel.PruneKeepsIndexed` | satdata_mstore.go:311-328 | Deleting what is unlisted keeps the invariant, never deletes a content mapped by a listed id, and deletes only contents of dropped ids |
| `IndexModel.PollKeepsIndexed` | satdata_mstore.go:123-166 | A poll of any catalogue keeps the index invariant |
| `IndexModel.SyncAllFacts` | satdata_mstore.go:141-151 | After going through the catalogue the known contents are the earlier ones and all named ones; every changed mapping comes from the first listing that names its content |
| `IndexModel.SyncAllInfo` | satdata_mstore.go:214-232 | After going through the catalogue what was known of a content is unchanged, and of each new content the download time is the poll's and the folder path and command id are those of the first listing that names it |
| `IndexModel.MatchingIdsAreClean` | satdata_mstore.go:141-151 | Metadata that carries the id it was asked for makes a catalogue clean |
| `IndexModel.SettledIsFixpoint` | satdata_mstore.go:202-214 | In a settled state a poll changes neither map and drops nothing |
| `IndexModel.TwoPollsSettle` | satdata_mstore.go:123-166 | From every state two polls of the same clean catalogue settle the index, and a third changes nothing |
| `IndexModel.PollsSettle` | satdata_mstore.go:111-122 | Any number of polls of the same clean catalogue, but at least two, lead to the state two polls lead to, and it is settled |
| `IndexModel.OnePollSettlesIff` | satdata_mstore.go:202-214 | One poll settles the index if and only if no unlisted satellite id maps to a listed content, that is, nothing was rebroadcast under a new id |
| `IndexModel.SettlesIffClean` | satdata_mstore.go:123-166 | Two polls settle the index from every state if and only if each content is first named under a listed id |
| `IndexModel.ChurningStays` | satdata_mstore.go:202-268 | A content named only under an unlisted id is added and dropped again by every poll |
| `IndexModel.SyncOrphansIff` | filesys/filesys.go:172-187 | Indexing orphans an older content if and only if the satellite id was in use, and then exactly the one it mapped to |
| `IndexModel.OrphansStay` | satdata_mstore.go:270-361 | No poll ever removes or maps an orphaned content again, whatever the catalogue |
| `IndexModel.HalfPruneOrphans` | satdata_mstore.go:312-328 | A stop between the two deletions, or a second deletion that does not commit, orphans exactly the contents that were about to go |
| `IndexModel.StaysKnown` | satdata_mstore.go:123-166 | A content all of whose ids are listed, or are about to be given to contents not yet known, stays known however often the same catalogue is polled |
| `SatelliteIndex.Poller.Report` | filesys/filesys.go:393-410 | A report is one put into the outbox, after whatever the handler and others have done since the last one; the reports stay puts of the outbox in their order |
| `SatelliteIndex.Poller.GetMstoreFiles` | satdata_mstore.go:202-268 | A new content with an id enters both maps in one transaction, with its time, folder path and command id, and then exactly its download is reported, the moment between the two recorded; a known one, or one without metadata, changes nothing |
| `SatelliteIndex.Poller.CollectDeleted` | satdata_mstore.go:290-296 | In whatever order the map is walked: exactly the unlisted ids, each once, with their contents |
| `SatelliteIndex.Poller.CollectInfos` | satdata_mstore.go:298-310 | Each dropped content gets the id that mapped to it and the command id known before deletion |
| `SatelliteIndex.Poller.DeleteIndexed` | satdata_mstore.go:312-328 | The two transactions restrict the satellite map to the listed ids and remove exactly the dropped contents; the state between them is recorded and keeps the invariant; if the first does not commit neither map changes, if the second does not, only the satellite map has |
| `SatelliteIndex.Poller.ReportDeleted` | satdata_mstore.go:330-359 | Exactly one deletion report per dropped id is put, in order, amid anything the handler and others do, each of kind Deleted under DL_ and the content's id, just made with both flags up, with the dropped id as its only sesCid property and the command id from before the deletion as its only commandId property; at each moment just the first of them have been made |
| `SatelliteIndex.Poller.HandleDeletedContents` | satdata_mstore.go:270-361 | If both transactions commit, the maps are exactly pruned, and then for each unlisted id exactly one deletion report is put, and no other, amid anything the handler and others do: it has the id DL_ and the content's, kind Deleted, both flags and no retries, the unlisted id as its only sesCid and the command id from before the deletion as its only commandId. If a transaction does not commit, the maps are as it left them and nothing is reported; at every moment from the first deletion on exactly the deletions not yet put are missing |
| `SatelliteIndex.Poller.CheckForVOD` | satdata_mstore.go:123-166 | A poll does to both maps what the reference function says, and the reports it puts, amid anything the handler and others do, are exactly the downloads of new contents and then one deletion per dropped id, or no deletion if a deleting transaction does not commit; every moment between two steps keeps the index invariant and is one of the two kinds a stop loses reports at; without a catalogue nothing happens |
| `SatelliteIndex.OneUnreported` | satdata_mstore.go:228-262 | At a moment while the catalogue is gone through, at most one content is indexed and not reported, the latest, and exactly between its transaction and its report |
| `SatelliteIndex.LostDownloadIff` | satdata_mstore.go:206-215 | A stop there loses that report for good, so that no number of later polls of the same catalogue reports it, if and only if the content's satellite id is listed or the catalogue gives that id to another content not yet known; otherwise the next poll drops the content and the one after it reports it |
| `SatelliteIndex.LostDeletions` | satdata_mstore.go:312-359 | A stop from the first deletion on loses the deletion reports not yet put for good: no later poll of the same clean catalogue drops, and so reports, anything |
| `SatelliteIndex.Poller.SyncCatalogue` | satdata_mstore.go:141-151 | Going through the catalogue does to the maps what the reference function says; each content that was unknown has exactly one report, and there is no other: of kind Downloaded under its id, just made with both flags up, with the satellite id, command id, location and size of the first listing that names it as its only such properties |
| `SatelliteReports.DownloadsExactly` | satdata_mstore.go:202-268 | A poll reports the download of exactly the contents that are named and were unknown, each once and as the first listing names it |
| `SatelliteReports.DownloadTells` | satdata_mstore.go:240-257 | A download report carries the metadata's satellite id, size, command id and location each as the only property of its name, and is of kind Downloaded under the content's id with both flags up and no retries |
| `SatelliteReports.DeletionsTell` | satdata_mstore.go:333-347 | Of the ids no longer listed each has exactly one deletion report, with the fields and properties it should have, and no other content has one |
| `SatelliteIndex.Poller.PollMstore` | satdata_mstore.go:111-122 | However often the same clean catalogue is polled, from the second poll on the maps stay at the settled state two polls reach, and no poll after it reports anything |
| `WireFormat.Int32RoundTrip` | route_handler.go:299-303 | A 32-bit value is read back if and only if it lies in [0, 2^32) |
| `WireFormat.Int64RoundTrip` | route_handler.go:308-312 | A 64-bit value is read back, as a signed number, if and only if it lies in [-2^63, 2^63) |
| `WireFormat.Int32Bytes` | route_handler.go:299-303 | The four bytes of a number are its base-256 digits, the most significant first |
| `WireFormat.Int64Bytes` | route_handler.go:308-312 | The eight bytes of a number are those of its upper half and then its lower digits, the most significant first |
| `WireFormat.ChildOnWire` | route_handler.go:122-147 | A child's encoding is the length and bytes of its id, four bytes that are 0, 0, 0 and 1 or 0 for its children, the eight bytes of its size and the four of its number of files, at these places |
| `WireFormat.FileOnWire` | route_handler.go:229-252 | A file's encoding is the length and bytes of its name, the eight bytes of its length and its contents, at these places |
| `WireFormat.DecodeEncodeIff` | route_handler.go:99-152 | A listing is read back from its encoding, whatever bytes follow, if and only if all its counts and lengths fit their widths |
| `WireFormat.EncodeInjective` | route_handler.go:99-152 | Different listings have different encodings and none is a prefix of another |
| `MetadataServer.Response.WriteBytes` | route_handler.go:266-276 | However the writer splits the bytes, success means exactly these bytes were appended; failure only appends |
| `MetadataServer.Response.WriteString` | route_handler.go:281-294 | Success appends the length-prefixed string |
| `MetadataServer.Response.WriteFile` | route_handler.go:317-333 | Always: at least the counted prefix of the file has been appended. If nothing fails: exactly that prefix, no shorter than the size asked for, and the whole file if the size is right |
| `MetadataServer.NameOfFile` | route_handler.go:231 | A file's name is the part of its path after the last slash, whatever is in front of it and however many slashes follow; the empty path gives a dot and a path of slashes one slash |
| `MetadataServer.Response.WriteMetadataFiles` | route_handler.go:222-261 | If nothing fails and files are unchanged, appends the count and the encodings of all files, each under the last part of its path |
| `MetadataServer.Response.ServeMetadata` | route_handler.go:99-152 | If nothing fails and files are unchanged, the body is the encoding of the listing with the files' base names and contents |
| `MetadataServer.ViewsShow` | route_handler.go:122-147 | The listing served shows each child's id, flag and size and each of its files' contents, and a file at any directory, a slash and a slash-free name under that name |
| `MetadataServer.ClientRecovers` | route_handler.go:99-152 | Decoding a clean response gives back exactly the listing served if and only if it fits the widths; then child by child the id, flag and size, and file by file the contents and the last part of the path as its name, are the ones served |
| `KeyManager.KeyManager.constructor` | keymanager/keymanager.go:29-34 | A new cache is valid, empty and of the given capacity |
| `KeyManager.KeyManager.AddKey` | keymanager/keymanager.go:36-62 | Keeps: the buffer has its full length, its used part is the last keys added, the files removed are those of the evicted keys in order; an unreadable key changes nothing |
| `KeyManager.KeyManager.GetKeyList` | keymanager/keymanager.go:64-71 | Exactly the last keys added, as many as there are up to the capacity, oldest first; the removed files are those of all earlier keys in order of eviction |
| `HashLog.OnePairReadsBackIff` | telemetry_events.go:188-202 | A file holding one stored pair reads back as that pair, without a panic, if and only if neither part holds an equals or greater sign or a line feed, the hash does not end in a carriage return and the line is shorter than 65536 characters |
| `HashLog.LineBreakPanics` | telemetry_events.go:195-199 | A name whose first line is free of separators and short enough makes the reader panic at once |
| `HashLog.LineReadsBackIff` | telemetry_events.go:196-199 | A line by itself, cut out by the scanner, splits into the pair it was made from if and only if neither part holds a separator and the hash does not end in a carriage return |
| `HashLog.HashFile.StoreHashsum` | utils.go:96-109 | Appends the name, =>, the hash and a line feed, so that the file is the lines of all pairs stored so far, in order |
| `HashLog.HashFile.GetHashsum` | telemetry_events.go:188-202 | The loop computes the scan of the whole file; after any sequence of stores of readable pairs it does not panic and returns the map in which the last store of a name wins; of a single stored pair it returns exactly that pair if and only if the pair is readable |
| `HashLog.ScanStored` | telemetry_events.go:195-200 | Scanning on over stored readable pairs turns the last-wins map of what was read into that of everything |

## Left out

- FileSys.FileSystem.DeleteFolder: failures of the transactions after the unlinking one are not modelled, stops are; the empty path is excluded by a `requires`; what would happen is `TreeLaws.HomeMustNotBeDeleted`.
- FileSys.FileSystem.RecursiveDeleteFolder: its unlinking transactions commit; what one that does not commit leaves is stated for `FileSys.FileSystem.DeleteFolder`; the empty path is excluded, as for deletion.
- FileSys.FileSystem.CreateFolder: the empty hierarchy, on which the source panics, is excluded.
- Expiry.CheckDeadlineAndDelete: the unlinking transactions commit, as for the deletion it starts; the text of the deadline file is a number per node, and text that does not parse reads as zero in the source.
- Expiry.Traverse: the prefix it returns, which no caller uses, is dropped.
- Outbox.Outbox.SendRequestInBatches: the source's two nearly identical functions for downloads and deletions are one method, which differ only in the payload built for a kind.
- Outbox.Outbox.AddContents: failed transactions and JSON failures are not modelled; a stop between the steps is.
- Outbox.Outbox.GetIdsToBeRemoved: a set, not a list; the deletions are one transaction, so their order does not show.
- SatelliteIndex.Poller.HandleDeletedContents: the reports carry the poll's time, where the source reads the clock for each.
- SatelliteIndex.Poller.CheckForVOD: an error while fetching, parsing or indexing one content's metadata is the answer `Failed`; the path rewriting and directory size of a content are part of the metadata given.
- SatelliteIndex.Poller.PollMstore: the catalogue can be had and the deleting transactions commit in each of its polls; one poll in which they do not is `SatelliteIndex.Poller.CheckForVOD`.
- Outbox.Outbox.HandleDirect: the marshalling failures on which the source skips a request are not modelled.
- MetadataServer.Response.ServeMetadata: after a failed write, size query or read only the already sent prefix is promised; the source goes on with the next child and the client then cannot decode the rest.
- HashLog.HashFile.GetHashsum: promised for readable pairs; lengths count characters, not bytes of an encoding, against the scanner's limit.
- KeyManager.KeyManager.AddKey: the mutex is not modelled (calls are atomic steps), and reading and parsing the key file is a parameter.
- Two tree operations at the same time: the name check and the insertion are separate transactions in the source, so distinct sibling names are claimed for operations that do not overlap.
- The number parsed from a content's size property: the property's text is kept as it is.
- bolt's refusal of empty or oversized keys, JSON, gRPC, HTTP, ini files, logging, random ids and SHA-256 internals.
- Real directories and their contents, apart from the set of those that cannot be removed.
- The older tree store in `database.go`, the earlier satellite interface in `satdata_noovo.go`, file moving and copying.
- Request parsing, command handling, disk queries, the C# proxy, the Python login application, generated code and deployment files.
