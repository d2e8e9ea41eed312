# FluxDB in Dafny

A Dafny model of FluxDB, an embedded MVCC storage engine, with proofs of what its protocols
keep over every run. `dafny verify dfyconfig.toml` checks the whole project. Four layers are
modelled; each Dafny module names the source file it follows.

**MVCC coordinator.** `Transaction` holds the visibility, conflict and vacuum rules;
`TransactionManager` the coordinator, as a value with one step function per critical section
and as a class that runs them. `SnapshotIsolation` is the state machine over begin, commit,
abort, read, update (claim and new version apart), delete, insert (check and new version
apart), truncate and a vacuum whose status reads happen at different moments. `Compaction`
ties the sweep to what a page drops. `WaitProtocol` is waiting and waking, one step per
critical section.

**Log and recovery.** `WalBuffer` (ring buffer), `GroupFlush` (leader/follower flush),
`SegmentLog` (segment files), `WalCodec` and `CkptCodec` (byte formats, torn tails), `Redo`
(LSN-gated page redo), `RedoPages` (the same on page bytes), `OpCodec` (block payloads),
`WritePath` (the page changes that are logged, each against its redo), `Recovery` (the
`recover` procedure), and `Durability`: one state machine over logging, page writes, syncs,
checkpoints, segment reclaim, crashes at any step (crashes during recovery included) and
recovery.

**B-link tree.** `InternalNode` (routing, downlink insertion, internal split),
`InternalRouting` (the same on page bytes), `BLink` (the concurrent protocol and its
invariant), `BLinkSearch` (what a search gets from it and what an insert adds) and
`BLinkDownlinks` (which pages have a parent, and who owes the missing ones).

**Pages and keys.** `PageBytes`, `LeafPage`, `LeafBuilder`, `LeafSplit`, `LeafSearch` and
`InternalPage` work in place on byte arrays; `SplitInsert` asks whether leaf splits make room;
`KeyCodec` is the nested key encoding and its byte-level comparison.

How to read the state machines: a `Step` is one critical section of the source (or one
lock-free access another thread can observe), `Enabled` says when it can happen, `Apply` what
it does, and `Runs(s, steps, s')` is any finite interleaving. Fields called history are
written but never read by a step.

## Where the code does not do what one might expect

Each of these is a theorem about the code as it is, with the exact condition and an instance.

- Inserts do not keep keys unique, in two ways. The check lets a transaction through that
  cannot see a row committed after its snapshot (`SnapshotIsolation.DuplicateKeyExample`). And
  an insert that has to split its leaf, and goes to the upper half, adds its row without
  checking again, so two of them can both pass and both add the key
  (`RacingInsertsExample`). `InsertUniqueIff` gives the exact condition at the moment the row
  is added, `CheckMissesHidden` what is left of it at the moment of the check. Both examples
  are runs from an empty database.
- `truncate_clog` after a completed sweep is not harmless, although section 8.4 of DESIGN.md
  says the dropped entries carry no information: a sweep removes the rows of aborted creators,
  so none comes back (`CreatorKept`), but it does not clear an aborted `xmax`.
  `TruncationChangesViewIff`, `SweepAndTruncateLoseRow` and `RowLostExample`.
- `split_internal_ly` cuts by the number of keys, not by bytes, and its builder does not check
  for room: with keys of up to 512 bytes a half can be too large, and its key data then runs
  over its high key or past the page. `InternalRouting.SplitPage` is right exactly when both
  halves fit; `UnsplittablePage` builds a page where they do not.
- The checkpoint reads its counters one after another. If the CLOG is truncated at a newer
  horizon between the reads of the horizon and of the CLOG, an abort can be forgotten
  (`Durability.LateTruncationLosesAbort`). Pages, commits and watermarks come back over every
  run all the same; which aborts do is exact in `OutcomesAfterCrash`, and
  `AbortsKnownAfterCrash` says all do if the reads are together. A transaction that begins
  between the reads of the id counter and of the active set has its id handed out again after
  a crash (`LateBeginIdReused`, exact by `IdPassedIff`).
- `truncate_clog` takes any `committed_horizon`. One that drops a committed entry at or above
  the global xmin can leave a writer waiting, again and again, for a transaction that is done
  (`SnapshotIsolation.WaitForFinishedExample`, exact by `TruncationKeepsKnownIff`). It has no
  caller outside tests today.
- `split_and_insert` does not always make room. A leaf with one large record is split into an
  empty page and itself, so an insert above that record that does not fit beside it splits for
  ever (`SplitInsert.EndlessIff`, `EndlessIsForever`, `EndlessExample`); one that lands in a
  lower half too full for it is refused after the split (`NoSpaceIff`, `RefusedExample`).
- A finished insert does not always leave its split linked into the tree. `split_and_insert`
  keeps its ancestor stack when it splits again after growing the root, so the second split
  finds another page to be the root and returns without a downlink; one thread alone is enough
  (`BLinkDownlinks.LostDownlinkExample`, `StaleStackLoses`). `EveryPageLinked` lists all the
  ways a downlink can be missing, `TopIsRootIff` is the exact condition for one call at a time,
  and searches find every row regardless (`BLinkSearch.DescentFindsLeaf`).
- `append` truncates lengths to their field widths: a record comes back from the log exactly
  when it is well formed (`WalCodec.RoundTripIff`), so a checkpoint with more than 8185 ids in
  its lists does not (`CkptCodec.CheckpointSurvivesIff`).
- DESIGN.md says `vacuum_horizon` is 0 after a restart; the code restores it from the
  checkpoint, and so does the model.

## Model

| member | source | states |
|---|---|---|
| Mins.ComputeMin | crates/db-core/src/transaction_manager.rs:103-122 | the running minimum over a set is its least element, or the default when it is empty |
| TransactionManager.Manager.constructor | crates/db-core/src/transaction_manager.rs:87-100 | a fresh coordinator: next id 1, nothing active, nothing published |
| TransactionManager.Manager.GlobalXmin | crates/db-core/src/transaction_manager.rs:103-122 | the least xmin any transaction or reader has published, or the next id |
| TransactionManager.Manager.Begin | crates/db-core/src/transaction_manager.rs:221-252 | a new id, a snapshot counting that id as in flight, and the two state steps (active set, then CLOG) |
| TransactionManager.Manager.ReadSnapshot | crates/db-core/src/transaction_manager.rs:127-146 | a snapshot without an id, pinned under a fresh token |
| TransactionManager.Manager.EndRead | crates/db-core/src/transaction_manager.rs:150-155 | the token's pin is gone and nothing else changed; the global xmin does not fall |
| TransactionManager.Manager.MarkCommitted | crates/db-core/src/transaction_manager.rs:259-268 | the two steps, CLOG then active set: every snapshot taken after the transaction left now reads it as committed, and no other id reads differently |
| TransactionManager.Manager.MarkAborted | crates/db-core/src/transaction_manager.rs:271-280 | the same for an abort: no snapshot reads it as committed |
| TransactionManager.Manager.PublishVacuumHorizon | crates/db-core/src/transaction_manager.rs:164-168 | the horizon only ever rises, to at least what is published |
| TransactionManager.Manager.TruncateClog | crates/db-core/src/transaction_manager.rs:205-213 | exactly the entries the two-tier rule retains are kept, and no snapshot reads an id at or above the vacuum horizon differently |
| TransactionManager.Manager.SettledStatusOf | crates/db-core/src/transaction_manager.rs:365-375 | a missing entry below the global xmin reads as committed |
| SnapshotIsolation.InvStep | crates/db-core/src/transaction_manager.rs:103-280 | every step of every actor keeps the coordinator, version, claim and vacuum invariants |
| SnapshotIsolation.OneVisibleVersion | crates/storage/src/index/mod.rs:655-815 | over every run whose inserts are safe where they add their row, whatever it truncates, no live transaction or reader sees two versions of the key, also between the two steps of an update or an insert |
| SnapshotIsolation.WriterBlocksClaims | crates/storage/src/index/mod.rs:744-764 | while an update has claimed its row and not yet added the new one, no transaction can claim any version of the key |
| SnapshotIsolation.WriterBlocksInserts | crates/storage/src/index/mod.rs:744-764 | nor can any insert of the key pass its check |
| SnapshotIsolation.TxnSeesAtMostOne | crates/db-core/src/transaction.rs:56-65 | from the version order alone: a running transaction, its own writes included, sees at most one version |
| SnapshotIsolation.ReaderSeesAtMostOne | crates/db-core/src/transaction.rs:192-209 | the same for a reader without an id |
| SnapshotIsolation.SnapshotStable | crates/db-core/src/transaction.rs:133-149 | over any later run a snapshot's answer to "is u committed" changes if and only if an abort it relied on is truncated |
| SnapshotIsolation.RepeatableReads | crates/db-core/src/transaction.rs:133-149 | the same from the moment begin or read_snapshot takes a snapshot of a reachable state |
| SnapshotIsolation.CommittedStable | crates/db-core/src/transaction_manager.rs:205-280 | one step that keeps u's abort, with commit, abort and begin split into their separate CLOG and active-set steps |
| SnapshotIsolation.NoLostUpdate | crates/storage/src/index/mod.rs:1161-1178 | over every run, of two transactions that ever claimed the same version, removed or not, one aborted |
| SnapshotIsolation.ClaimNeverOverwritten | crates/storage/src/index/mod.rs:1161-1178 | over every run a claim by a transaction that does not abort is never changed |
| SnapshotIsolation.ClaimFacts | crates/storage/src/index/mod.rs:1161-1178 | when the conflict check proceeds, the previous claimer (if any) aborted and the creator is the caller or committed |
| SnapshotIsolation.HorizonBounds | crates/db-core/src/transaction_manager.rs:103-122 | the global xmin bounds the xmin of every live transaction and reader, and the next id |
| SnapshotIsolation.HorizonMonotone | crates/db-core/src/transaction_manager.rs:103-146 | no step whatsoever lowers it |
| SnapshotIsolation.HorizonNeverFallsBack | crates/db-core/src/transaction_manager.rs:103-146 | no run whatsoever lowers it |
| SnapshotIsolation.AcceptedIsDead | crates/db-core/src/transaction.rs:221-234 | what `is_vacuumable` accepted, its reads spread over time: its creator did abort, or its deleter finished, not aborted, before every live snapshot |
| SnapshotIsolation.DeadIsInvisible | crates/db-core/src/transaction.rs:192-209 | a version dead in that sense, the creator's abort being known, is invisible to every live transaction and reader |
| SnapshotIsolation.VacuumSafety | crates/db-core/src/transaction.rs:221-234 | over every run, whatever it truncates, a version the vacuum accepts is invisible to every snapshot live then or taken later; where the vacuum went by the creator's abort, as long as that one entry is kept |
| SnapshotIsolation.RefusedIsClean | crates/storage/src/page/leaf.rs:603-621 | a version the sweep keeps has no aborted creator below the sweep's horizon |
| SnapshotIsolation.CreatorKept | crates/db-core/src/transaction_manager.rs:197-213 | truncation never forgets the abort of a stored version's creator: the completed sweep behind the vacuum horizon has removed those versions |
| SnapshotIsolation.WaitsForLive | crates/storage/src/index/mod.rs:1070-1178 | over every run, a writer told to wait is told to wait for another transaction, in flight unless its outcome was truncated; in flight for certain if no truncation dropped a committed entry at or above the global xmin |
| SnapshotIsolation.TruncationKeepsKnownIff | crates/db-core/src/transaction_manager.rs:205-213 | exactly the truncations that drop no committed entry at or above the global xmin keep every forgotten transaction below all live snapshots |
| SnapshotIsolation.WaitForFinishedExample | crates/db-core/src/transaction_manager.rs:289-300 | a run in which a writer is told to wait for a transaction that has committed and left |
| Compaction.CompactKeepsView | crates/storage/src/page/leaf.rs:587-651 | if each record a page drops was accepted by a sweep of some run, each with its own reads, every transaction and reader live at the end reads the same records from the compacted page |
| SnapshotIsolation.GoneForGood | crates/db-core/src/transaction_manager.rs:259-280 | an aborted transaction stays aborted over every later run |
| SnapshotIsolation.DroppedForGood | crates/storage/src/index/mod.rs:655-815 | a removed version id is never used again |
| SnapshotIsolation.InsertUniqueIff | crates/storage/src/index/smo.rs:78-153 | adding the row of an insert past its check leaves every continuation with at most one visible row if and only if, then, no version is visible to it or has come up behind its snapshot and no update of the key is under way |
| SnapshotIsolation.SafeInsertHarmless | crates/storage/src/index/smo.rs:78-153 | the safe direction, for every continuation |
| SnapshotIsolation.UnsafeInsertExposed | crates/storage/src/index/smo.rs:107-153 | the other: whichever part of the condition fails, a constructed run of commits ends with somebody seeing two rows |
| SnapshotIsolation.DuplicateKeyExample | crates/storage/src/index/mod.rs:1070-1105 | a run from an empty database: a check that passes late, and two visible rows of one key |
| SnapshotIsolation.RacingInsertsExample | crates/storage/src/index/smo.rs:107-153 | a run from an empty database: two checks that pass rightly, two rows added after them, and both visible |
| SnapshotIsolation.CheckMissesHidden | crates/storage/src/index/mod.rs:1070-1105 | at the moment the check passes, the insert is safe if and only if no version has come up behind its snapshot; what a passed check means is `PassedCheckMeans` |
| SnapshotIsolation.PassedCheckMeans | crates/storage/src/index/mod.rs:1070-1105 | when the insert check passes, no version of the key is visible to the inserter, and none has a creator or deleter that is still running, unless it is the inserter |
| SnapshotIsolation.InsertVerdictIs | crates/storage/src/index/mod.rs:1070-1105 | what each verdict of the insert check means in the history: when it passes, when it reports a duplicate, and whom it waits for |
| SnapshotIsolation.WriteVerdictIs | crates/storage/src/index/mod.rs:1161-1178 | what each verdict of the write check means in the history: unclaimed, own or aborted claim, a claimer at work, or a committed one |
| SnapshotIsolation.InProgressIff | crates/db-core/src/transaction.rs:153-167 | asked by a running transaction, `is_in_progress` says yes exactly for the running ones and for those whose outcome was truncated from the CLOG before the asker's snapshot could take it in |
| SnapshotIsolation.AtWorkIsRunning | crates/db-core/src/transaction.rs:153-167 | where no committed entry was truncated too early, that is: exactly the running ones |
| SnapshotIsolation.SettledStatusIs | crates/db-core/src/transaction_manager.rs:365-375 | the status read at one moment is what became of the transaction |
| SnapshotIsolation.ProbesAtOnce | crates/db-core/src/transaction_manager.rs:365-375 | the sweep's three spread reads, taken together, give that status |
| SnapshotIsolation.VacuumableIs | crates/db-core/src/transaction.rs:221-234 | `is_vacuumable` at one moment says: creator aborted, or deleter committed and below the horizon |
| SnapshotIsolation.AcceptedAtOnce | crates/db-core/src/transaction.rs:221-234 | and the sweep accepts exactly then when nothing happens between its reads |
| SnapshotIsolation.TruncationChangesViewIff | crates/db-core/src/transaction_manager.rs:205-213 | in every reachable state truncation changes what a reader or transaction sees of a stored version if and only if they see it and its deleter's abort is forgotten: rows can be lost, never come back |
| SnapshotIsolation.SweepAndTruncateLoseRow | crates/storage/src/page/leaf.rs:603-621 | a live row with an aborted xmax below the horizon is kept by the sweep and hidden by the truncation after it |
| SnapshotIsolation.RowLostExample | crates/db-core/src/transaction_manager.rs:205-213 | a run from one committed row: deleted, aborted, examined and kept by a sweep, truncated; a new reader saw the row before and does not after |
| WaitProtocol.WaitsClimb | crates/storage/src/index/mod.rs:1148-1154 | along any chain of waits the ids rise |
| WaitProtocol.NoDeadlock | crates/storage/src/index/mod.rs:1148-1154 | in every reachable state no chain of waits comes back to its start |
| WaitProtocol.NoLostWakeup | crates/db-core/src/transaction_manager.rs:289-330 | a thread asleep on a settled transaction still has a notification pending, in every interleaving |
| WaitProtocol.PendingDelivers | crates/db-core/src/transaction_manager.rs:323-330 | the pending call, run to its end, wakes that thread |
| WaitProtocol.ReturnsOnlySettled | crates/db-core/src/transaction_manager.rs:289-330 | in every interleaving `wait_until_settled` returns only when the transaction it waited for has left the active set |
| WaitProtocol.OwnInvStep | crates/db-core/src/transaction_manager.rs:259-330 | each step keeps every wait entry the entry of one transaction, whose flag goes up only when that one has settled |
| WaitProtocol.InvStep | crates/db-core/src/transaction_manager.rs:259-330 | each step of settling, waiting and notifying keeps the invariant behind both |
| WalBuffer.Buffer.constructor | crates/storage/src/wal.rs:380-387 | an empty queue |
| WalBuffer.Buffer.UsedSpace | crates/storage/src/wal.rs:397-407 | the total length of the queued records, in the exactly-full and empty cases too |
| WalBuffer.Buffer.PushRecord | crates/storage/src/wal.rs:413-436 | too large, full, or the record is appended to the queue |
| WalBuffer.Buffer.CopyIntoRing | crates/storage/src/wal.rs:438-448 | the ring's contents become the queue's bytes followed by the record, across the wrap |
| WalBuffer.Buffer.BufferedPrefixLen | crates/storage/src/wal.rs:450-460 | total length and last LSN, or nothing when empty |
| WalBuffer.Buffer.CopyRecords | crates/storage/src/wal.rs:462-479 | exactly the queued records, in order |
| WalBuffer.Buffer.ConsumePrefix | crates/storage/src/wal.rs:481-498 | the first k records leave the queue, the rest stay as they were |
| WalBuffer.Buffer.PopRecords | crates/storage/src/wal.rs:481-498 | its loop pops exactly the records the byte count covers |
| WalBuffer.CopyOne | crates/storage/src/wal.rs:462-479 | one record read back in at most two pieces |
| WalBuffer.RingAppend | crates/storage/src/wal.rs:438-448 | writing behind the used part extends the sequence read from the ring |
| GroupFlush.InvStep | crates/storage/src/wal.rs:1478-1579 | every step of appenders, leader and followers keeps the invariant |
| GroupFlush.LogStaysInOrder | crates/storage/src/wal.rs:1444-1469 | file order, buffer order and LSN order coincide without gaps, and `flushed_lsn` never passes what is synced |
| GroupFlush.OkMeansDurable | crates/storage/src/wal.rs:1478-1579 | `flush_up_to` returns Ok only when its clamped target is synced, by whichever branch |
| GroupFlush.FlushReachesLsn | crates/storage/src/wal.rs:1478-1579 | from the call of `flush_up_to(lsn)` to its Ok, through any interleaving, every record appended before the call up to `lsn` is synced and in its place in the file |
| GroupFlush.FailureSticks | crates/storage/src/wal.rs:1478-1579 | after a failed flush nothing more is appended, written, synced or reported flushed |
| GroupFlush.FailureReported | crates/storage/src/wal.rs:1478-1579 | a leader whose write failed raises the failure before anybody else can lead |
| GroupFlush.SleeperWillBeWoken | crates/storage/src/wal.rs:1478-1579 | whenever a follower sleeps, some thread will still notify, a thread able to move is named, and the notification wakes the sleeper |
| SegmentLog.Writer.constructor | crates/storage/src/wal.rs:542-571 | on any existing directory: the last file goes on if it has room, otherwise the next is started; the log read back is unchanged |
| SegmentLog.Writer.Rotate | crates/storage/src/wal.rs:583-598 | a new active segment; the log is unchanged |
| SegmentLog.Writer.WriteRecord | crates/storage/src/wal.rs:600-618 | a record larger than a segment is refused; any other is appended whole to one segment, within its size |
| SegmentLog.Writer.WriteAll | crates/storage/src/wal.rs:600-618 | the record goes to the active segment and the segments concatenate to the log |
| SegmentLog.Writer.CountReclaimable | crates/storage/src/wal.rs:1589-1623 | how many leading segments can go: the first one kept starts at or below the redo point, the one after it does not |
| SegmentLog.Writer.ReclaimBelow | crates/storage/src/wal.rs:1589-1623 | a prefix of segments goes, never the active one, and no record at or above the redo point |
| LittleEndian.DecodeEncode | crates/storage/src/wal.rs:1366-1440 | reading back a little-endian field |
| LittleEndian.EncodeDecode | crates/storage/src/wal.rs:704-867 | and writing back what was read |
| WalCodec.RoundTrip | crates/storage/src/wal.rs:704-867 | parsing inverts serialization of every well-formed record, whatever follows it |
| WalCodec.RoundTripIff | crates/storage/src/wal.rs:1366-1440 | a record comes back unchanged if and only if it is well formed |
| WalCodec.ParsedOk | crates/storage/src/wal.rs:704-867 | whatever parses has its block count, flags and lengths within their fields |
| WalCodec.TornRecord | crates/storage/src/wal.rs:704-867 | a strict prefix of a record never parses, and the failure is an end of file |
| WalCodec.PrefixFree | crates/storage/src/wal.rs:1366-1440 | no record's encoding is a strict prefix of another's, whatever the checksum function |
| WalCodec.ScanRecords | crates/storage/src/wal.rs:892-955 | scanning a segment of records plus a torn tail finds exactly the records |
| WalCodec.OpenAfterTornWrite | crates/storage/src/wal.rs:892-955 | opening a log whose last segment ends in a torn record truncates to the whole records and resumes at the last LSN plus one |
| WalCodec.MidLogDamageRefused | crates/storage/src/wal.rs:892-955 | damage in an earlier segment is an error, not a truncation |
| WalCodec.ReadBlocks | crates/storage/src/wal.rs:704-867 | the block loop computes the block parser |
| WalCodec.NextRecord | crates/storage/src/wal.rs:704-867 | `next_record` computes the record parser, which `ParseIff`, `ChecksumDecides` and `AcceptedBytes` describe |
| WalCodec.ParseIff | crates/storage/src/wal.rs:704-867 | the parser accepts a record exactly when the bytes in front are that record's, with whatever length field, and the checksum of those bytes behind them |
| WalCodec.ChecksumDecides | crates/storage/src/wal.rs:826-842 | with the fields and payloads of any well-formed record in front, the four bytes behind them decide: the record if they are the checksum of all before, a checksum mismatch if not |
| WalCodec.AcceptedBytes | crates/storage/src/wal.rs:704-867 | whatever is accepted, the last four bytes consumed are the checksum of those before, and the bytes are the record's |
| WalCodec.OpenDamaged | crates/storage/src/wal.rs:892-955 | opening a segment whose scan stops at a bad record: cut off behind the last good one if it is the last segment and the record is torn or ends it, refused in an earlier segment or before more bytes |
| WalCodec.DamagedRecordNotTaken | crates/storage/src/wal.rs:892-955 | a record whose checksum does not match is never taken: the open is refused, or at the very end of the log it is cut off |
| WalCodec.ScanSegment | crates/storage/src/wal.rs:892-955 | the scan loop computes the segment scan |
| WalCodec.OpenLog | crates/storage/src/wal.rs:892-955 | the loop over segments computes the opened state, or refuses |
| CkptCodec.ParseIff | crates/storage/src/wal.rs:172-264 | parsing accepts exactly the serialized payloads and gives back what was serialized |
| CkptCodec.CheckpointSurvivesIff | crates/storage/src/wal.rs:1329-1358 | a checkpoint record comes back from the log if and only if its two lists hold at most 8185 ids |
| CkptCodec.FromBytes | crates/storage/src/wal.rs:172-264 | the parsing loops, count bounds and trailing-bytes test compute the parser |
| Redo.RedoBlocksPointwise | crates/storage/src/recovery/mod.rs:249-267 | redo of a record acts on each page by that page's own block |
| Redo.RedoStep | crates/storage/src/recovery/mod.rs:249-364 | one gated block takes an image holding the first n records to one holding n + 1 |
| Redo.RedoConverges | crates/storage/src/recovery/mod.rs:145-185 | pages at different prefixes of their own histories all reach the state of the whole log, and redo does not fail |
| Redo.RedoIdempotent | crates/storage/src/recovery/mod.rs:145-185 | running recovery again, from any earlier redo point, changes nothing |
| RedoPages.ApplyLeaf | crates/storage/src/recovery/mod.rs:269-364 | on the bytes of any leaf, `apply_data` does what `Redo.Apply` does to the decoded page, and fails exactly where it does or where dead space leaves no gap for the record; that this is the change that was logged is `WritePath` |
| RedoPages.ApplyInternal | crates/storage/src/recovery/mod.rs:302-341 | the same on an internal page |
| RedoPages.RedoLeaf | crates/storage/src/recovery/mod.rs:249-267 | LSN gate, apply and stamp on bytes are one gated redo step of the decoded page |
| RedoPages.RedoInternal | crates/storage/src/recovery/mod.rs:249-267 | the same on an internal page |
| RedoPages.RedoMeta | crates/storage/src/recovery/mod.rs:349-354 | the same for the root pointer of page 0 |
| RedoPages.RedoImage | crates/storage/src/recovery/mod.rs:249-265 | a full-page image makes the imaged page of whatever older bytes were there, and leaves a newer page alone |
| RedoPages.GapIsFit | crates/storage/src/page/leaf.rs:219-236 | the free gap takes a record exactly when the decoded records and the dead space leave room |
| RedoPages.RoomIsFit | crates/storage/src/page/internal.rs:196-205 | `can_fit` is exact |
| OpCodec.RoundTrip | crates/storage/src/wal.rs:1001-1270 | redo reads from the logged payload exactly the change that was logged, if and only if its fields fit their widths |
| OpCodec.ReadsCarried | crates/storage/src/recovery/mod.rs:269-364 | redo reads a change only from the record type and block that carry it |
| WritePath.InsertVersion | crates/storage/src/index/mod.rs:525-552 | the row goes in at its slot with its writer as creator and no deleter, all else unchanged; redo of the logged block makes that very page of the one before, once |
| WritePath.MarkDeleted | crates/storage/src/index/mod.rs:642-650 | only the deleter of one row changes; redo of the logged block makes that very page |
| WritePath.AddDownlink | crates/storage/src/index/smo.rs:656-674 | separator and child go in side by side if and only if they fit; redo of the logged block makes that very page |
| WritePath.ClearLeafSplit | crates/storage/src/index/smo.rs:673-677 | only the split flag goes; redo of the child block of either record type does the same |
| WritePath.ClearInternalSplit | crates/storage/src/index/smo.rs:615-620 | the same on an internal page |
| WritePath.PublishRoot | crates/storage/src/index/smo.rs:599-611 | page 0 names the new root and keeps the rest; redo of the logged block does the same |
| WritePath.MarkHalfDead | crates/storage/src/index/smo.rs:303-311 | only the half-dead flag is set, by the change and by its redo |
| WritePath.Relink | crates/storage/src/index/smo.rs:410-420 | only the one sibling link changes, by the change and by its redo, whatever the block's index |
| WritePath.RemoveDownlink | crates/storage/src/index/smo.rs:348-404 | exactly the child found goes, with the key on its left, or for the first child the key on its right; the logged index and side redo that |
| WritePath.StampLeafImage | crates/storage/src/wal.rs:1128-1160 | a page logged whole comes back from any older page |
| WritePath.StampInternalImage | crates/storage/src/wal.rs:1162-1206 | the same for an internal page |
| Recovery.FindCheckpoint | crates/storage/src/recovery/mod.rs:86-118 | pass 1 finds the checkpoint the superblock names, or none if it is missing or does not parse |
| Recovery.RedoRecord | crates/storage/src/recovery/mod.rs:249-267 | the block loop computes the record's redo, or fails where it does |
| Recovery.TrackPages | crates/storage/src/recovery/mod.rs:158-161 | the highest page id touched |
| Recovery.MarkVictims | crates/storage/src/recovery/mod.rs:187-200 | exactly the candidates with no outcome become aborted |
| Recovery.Recover | crates/storage/src/recovery/mod.rs:86-226 | the two passes, victims and watermarks compute the recovery function, failures included |
| Recovery.MarkAllOutcome | crates/storage/src/recovery/mod.rs:168-171 | after the scan each transaction reads by its own last outcome record |
| Recovery.CommittedStays | crates/storage/src/recovery/mod.rs:126-200 | a committed transaction is not rebuilt as aborted, even with its Commit record reclaimed |
| Recovery.UncommittedAborts | crates/storage/src/recovery/mod.rs:126-200 | one that left a trace, that the checkpoint names or did not see, and did not commit is rebuilt as aborted |
| Durability.PageInvStep | crates/storage/src/buffer_pool/shard.rs:318-410 | memory, disk images, the dirty set and the checkpoint flush stay consistent over every step, crash and redo step |
| Durability.WriteKeepsPages | crates/storage/src/buffer_pool/shard.rs:386-410 | a page written after the log is durable to its LSN stays recoverable |
| Durability.SuperblockKeepsPages | crates/engine/src/engine.rs:226-238 | after flush and sync the superblock may move the redo floor, and reclaim may follow it |
| Durability.CrashKeepsPages | crates/storage/src/recovery/mod.rs:86-226 | whatever mixture of images a crash leaves, every page is at or above the redo floor |
| Durability.TxnInvStep | crates/engine/src/txn.rs:31-74 | CLOG, active set and log agree over every step of commit, abort, checkpoint and recovery |
| Durability.DraftDone | crates/engine/src/engine.rs:171-211 | a checkpoint whose reads are done bounds every id and page logged before it and names nobody who had committed |
| Durability.CrashThenRecover | crates/engine/src/engine.rs:171-241 | a crash at any step of any run, then `recover`: no failure, and every page is the replay of the whole surviving log over the pages as created, reclaimed records included |
| Durability.OutcomesAfterCrash | crates/storage/src/recovery/mod.rs:126-213 | over any run: what committed does not read as aborted, what did not reads as aborted iff the checkpoint names it or a record of it is kept, and both watermarks pass everything logged |
| Durability.RebuiltAfterCrash | crates/storage/src/recovery/mod.rs:195-222 | the transaction manager the machine goes on with has the CLOG, ids, page counter and horizon that `recover` returns |
| Durability.NamesInvStep | crates/engine/src/engine.rs:182-211 | a step that does not truncate at a newer horizon between the checkpoint's reads keeps every finished, uncommitted transaction known to the CLOG or named by the checkpoint |
| Durability.AbortsKnownAfterCrash | crates/storage/src/recovery/mod.rs:187-200 | if all checkpoints' reads are together, traced ids at or above the horizon read as aborted iff their Commit record did not survive |
| Durability.AcknowledgedIsDurable | crates/engine/src/txn.rs:31-55 | a published commit with writes has its Commit record on disk |
| Durability.CommitIsForever | crates/engine/src/txn.rs:31-74 | a durable commit never reads as aborted after, over any run with any number of crashes |
| Durability.RedoKeptIsRedoAll | crates/storage/src/wal.rs:1589-1623 | redo over the kept segments is redo over the whole log from the floor |
| Durability.WatermarksPass | crates/storage/src/recovery/mod.rs:202-223 | the restored counters pass every id and page in any record, reclaimed or not |
| Durability.AbortKnownIff | crates/storage/src/recovery/mod.rs:187-200 | an uncommitted transaction is rebuilt as aborted iff the checkpoint names it or a record of it is kept |
| Durability.IdPassedIff | crates/storage/src/recovery/mod.rs:202-213 | exactly which ids the restored counter passes |
| Durability.LateTruncationLosesAbort | crates/engine/src/engine.rs:192-205 | a run in which a truncation between two reads makes an abort read as committed after a crash |
| Durability.LateBeginIdReused | crates/engine/src/engine.rs:182-190 | a run in which an id in the checkpoint's active set is handed out again |
| InternalNode.FindChild | crates/storage/src/page/internal.rs:178-193 | the binary search returns the child left of the first greater key |
| InternalNode.UpperBound | crates/storage/src/index/smo.rs:741-753 | the position of the first greater key |
| InternalNode.RouteIs | crates/storage/src/page/internal.rs:178-193 | what that position means, duplicates included |
| InternalNode.AddDownlinkReroutes | crates/storage/src/page/internal.rs:304-325 | adding a separator changes the child only for keys from it up, in the window it falls into |
| InternalNode.SplitRoutes | crates/storage/src/index/smo.rs:722-783 | for every key the half chosen by the pushed-up key routes as the unsplit page with the separator added |
| InternalNode.SplitInternal | crates/storage/src/index/smo.rs:722-783 | search, insertion and the two builder loops compute that split |
| InternalNode.Build | crates/storage/src/page/internal.rs:473-491 | the builder's pushes |
| InternalRouting.FindChild | crates/storage/src/page/internal.rs:178-193 | on page bytes, under any key order, the child the decoded node routes to |
| InternalRouting.AddDownlink | crates/storage/src/index/smo.rs:656-662 | routing and inserting on page bytes adds the downlink to the decoded node, refused exactly when there is no room |
| InternalRouting.BuildPage | crates/storage/src/page/internal.rs:450-540 | the builder fails exactly when the sections exceed the page, and the page decodes to what was pushed exactly when they leave the high key alone |
| InternalRouting.SplitPage | crates/storage/src/index/smo.rs:722-783 | the two pages decode to the halves of the decoded node, high keys, links and flag included, if and only if both halves fit |
| InternalRouting.UnsplittablePage | crates/storage/src/index/smo.rs:755-783 | a page of sorted keys of at most 512 bytes that has no room for one more and cannot be split either |
| BLink.InvStep | crates/storage/src/index/smo.rs:571-690 | every step of every thread, splits of one-record leaves and threads giving up at any point included, keeps all pages, the root and all threads' stacks and pending downlinks right |
| BLink.VisitOk | crates/storage/src/index/mod.rs:403-449 | moving right or down keeps low <= key and an ancestor stack that leads to the page |
| BLink.SplitKeeps | crates/storage/src/index/smo.rs:431-569 | a split, leaf or internal, keeps the page invariant before its downlink exists |
| BLink.LinkAdded | crates/storage/src/index/smo.rs:647-671 | inserting the downlink keeps every child's low bound equal to its window's |
| BLink.NodeSplit | crates/storage/src/index/smo.rs:722-783 | so does the internal split with the downlink fused in |
| BLink.GrowKeeps | crates/storage/src/index/smo.rs:586-619 | so does a new root, also when two threads build one |
| BLink.SplitterOk | crates/storage/src/index/smo.rs:673-690 | the thread that split carries a right separator and a usable stack upward |
| BLinkDownlinks.DownlinkLands | crates/storage/src/index/smo.rs:586-690 | adding the downlink, fusing it into a parent split or building a root on it puts it in some page |
| BLinkDownlinks.DownlinkKept | crates/storage/src/index/smo.rs:571-690 | no step of any thread removes a downlink |
| BLinkDownlinks.EveryPageLinked | crates/storage/src/index/smo.rs:571-690 | in every interleaving each page split off has a downlink, or a thread on its way to insert it, or was given up by an error, a refused row, or a changed root at the top of the stack |
| BLinkDownlinks.TopInvStep | crates/storage/src/index/smo.rs:571-634 | every step keeps each stack as high as the root was when the thread last read it |
| BLinkDownlinks.TopIsRootIff | crates/storage/src/index/smo.rs:580-592 | with one call at a time, the page at the top of the stack is the root if and only if the call has not grown the tree since it read the root |
| BLinkDownlinks.SerialTreeComplete | crates/storage/src/index/smo.rs:571-690 | calls one after another that give nothing up and meet that condition leave every page but the root below another |
| BLinkDownlinks.StaleStackLoses | crates/storage/src/index/smo.rs:107-136 | from any state, a call that splits at the top of its stack away from the root leaves the new page without a downlink |
| BLinkDownlinks.LostDownlinkExample | crates/storage/src/index/smo.rs:107-136 | a run of one thread from the empty tree that ends so |
| BLinkSearch.DescentFindsLeaf | crates/storage/src/index/mod.rs:403-471 | in every interleaving, with any downlinks missing: low <= key on the current page, the descent can always go on, and the leaf it may stop at is the only leaf whose range holds the key |
| BLinkSearch.RowsOfKeyNearby | crates/storage/src/index/smo.rs:441-472 | rows of the key on any other leaf are only on pages whose high key is that very key |
| BLinkSearch.RowsAccountedFor | crates/storage/src/index/smo.rs:479-536 | per key, each step changes the number of rows only by what it inserts or removes |
| BLinkSearch.RunAccountedFor | crates/storage/src/index/smo.rs:479-536 | over a whole run the rows of each key change by what the steps insert and remove; that each insert puts its row in is `InsertAddsOnce` |
| BLinkSearch.CallAdds | crates/storage/src/index/smo.rs:78-153 | from any point of a call to its end it adds what it still owes, of its own key and nothing else, and it ends without its row only by giving up |
| BLinkSearch.InsertAddsOnce | crates/storage/src/index/smo.rs:78-153 | over every run, an insert that comes to its end has added its key exactly once, through any number of splits, and the leaves' count of each key balances |
| BLinkSearch.FindLeaf | crates/storage/src/index/mod.rs:1182-1222 | over a quiet tree the descent ends, on a leaf starting at or left of the key |
| BLinkSearch.CorrectRight | crates/storage/src/index/mod.rs:452-471 | the right-link correction ends on the leaf that holds the key |
| PageBytes.CopyWithin | crates/storage/src/page/leaf.rs:516-523 | an overlapping move, in either direction |
| LeafPage.InsertRaw | crates/storage/src/page/leaf.rs:477-537 | refused exactly when the gap is too small, else the decoded records change by one insertion and the header stays |
| LeafPage.WriteInsertion | crates/storage/src/page/leaf.rs:500-534 | record, slot shift, slot and counts, written in place, amount to that insertion |
| LeafPage.InsertedDecodes | crates/storage/src/page/leaf.rs:477-537 | slots stay in bounds, disjoint and size-consistent |
| LeafPage.Remove | crates/storage/src/page/leaf.rs:550-576 | the decoded records change by one removal, the record bytes stay as dead space |
| LeafPage.SetStamp | crates/storage/src/page/leaf.rs:438-455 | one stamp of one record changes and nothing else |
| LeafBuilder.Builder.constructor | crates/storage/src/page/leaf.rs:668-683 | an empty page without dead space |
| LeafBuilder.Builder.SetHighKey | crates/storage/src/page/leaf.rs:695-704 | the high key is stored and the slot base moves behind it |
| LeafBuilder.Builder.SetLinks | crates/storage/src/page/leaf.rs:685-691 | both links, nothing else |
| LeafBuilder.Builder.Push | crates/storage/src/page/leaf.rs:743-789 | the record is appended, without dead space |
| LeafBuilder.RowsFit | crates/storage/src/page/leaf.rs:98-124 | the records of any well-formed page fit on a page again, whatever dead space it has, its free gap included |
| LeafBuilder.PushAll | crates/storage/src/page/leaf.rs:751-761 | pushing records that fit never meets the full-page assertion |
| LeafBuilder.Gather | crates/storage/src/page/leaf.rs:603-621 | the live records in order, the number dropped and the orphaned overflow chains, each slot by its own verdict |
| LeafBuilder.Compact | crates/storage/src/page/leaf.rs:587-651 | exactly the records whose own verdict is not vacuumable remain, in order, with links, flags, LSN and high key; an untouched page if none goes |
| LeafBuilder.Position | crates/storage/src/page/leaf.rs:261-276 | a slot with the key, or the place where all smaller keys end and all greater begin |
| LeafSplit.SplitPoint | crates/storage/src/index/smo.rs:441-472 | the first key change past the middle, else the last before it, else, with one key only, the middle |
| LeafSplit.HalvesFit | crates/storage/src/page/leaf.rs:98-124 | both rebuilt halves fit, the separator as the new high key included |
| LeafSplit.SplitLeaf | crates/storage/src/index/smo.rs:431-536 | from one record up: halves concatenate to the page, cut where `Cut` says, left <= separator <= right, the separator's key on the left iff the page has several records of one key |
| LeafSplit.SplitLeafPage | crates/storage/src/index/smo.rs:474-540 | the two rebuilt pages, from one record up: records cut there, high keys, links and the split flag |
| SplitInsert.EndlessIff | crates/storage/src/index/smo.rs:78-153 | the splits go on for ever iff the key is not below the page's last and the record does not fit beside that one alone |
| SplitInsert.EndlessIsForever | crates/storage/src/index/smo.rs:130-141 | that outcome is: after every number of splits the record has gone to the upper half and found no room |
| SplitInsert.LastStays | crates/storage/src/index/smo.rs:441-472 | after as many splits as records the page to insert into is the last record alone, and stays that |
| SplitInsert.NoSpaceIff | crates/storage/src/index/smo.rs:89-109 | refused iff after some splits to the right the next one sends the record to a lower half without room |
| SplitInsert.BelowOnlyRecord | crates/storage/src/index/smo.rs:89-109 | below the only record of a page, a record within the size limits always goes into the empty lower half |
| SplitInsert.EndlessExample | crates/storage/src/index/smo.rs:130-141 | two records with 8-byte keys and 2048-byte values, the second above the first |
| SplitInsert.RefusedExample | crates/storage/src/index/smo.rs:89-109 | a record that goes between a large and a small one is refused; below the large one alone it goes in |
| LeafSearch.DuplicateSlotBounds | crates/storage/src/index/mod.rs:955-984 | exactly the run of slots with the key, from any slot in it |
| LeafSearch.FindVisibleSlot | crates/storage/src/index/mod.rs:992-1012 | the first slot with a visible version of the key, or none if the page has none |
| InternalPage.Rewrite | crates/storage/src/page/internal.rs:422-442 | the three sections decode to exactly the given children and keys; links, LSN and high key stay |
| InternalPage.WriteSections | crates/storage/src/page/internal.rs:422-442 | the shared section writes give a well-formed page if and only if they fit below the high key |
| InternalPage.Snapshot | crates/storage/src/page/internal.rs:399-420 | reads back exactly those |
| InternalPage.InsertKeyAndRightChild | crates/storage/src/page/internal.rs:304-325 | refused exactly when too full, else key and right child are inserted |
| InternalPage.RemoveKeyAt | crates/storage/src/page/internal.rs:332-344 | the key and the child on the side not kept are removed |
| InternalPage.LastEnd | crates/storage/src/page/internal.rs:230-242 | the last end offset is the total key length, so the free-space test is exact |
| KeyCodec.EncodeVarint | crates/common/src/types.rs:6-17 | seven bits at a time, low first |
| KeyCodec.DecodeVarint | crates/common/src/types.rs:19-38 | its inverse, with the ten-byte limit and the loss of bits beyond a `usize` |
| KeyCodec.VarintRoundTrip | crates/common/src/types.rs:6-38 | decoding gives the number back and consumes exactly its bytes |
| KeyCodec.Encode | crates/common/src/types.rs:402-424 | the encoders, end-offset patching included, compute the layout at every type |
| KeyCodec.EncodeWithEnds | crates/common/src/types.rs:413-423 | offsets patched into the front as items are appended |
| KeyCodec.Decode | crates/common/src/types.rs:662-686 | the decoders compute the inverse layout, or panic where it is undefined |
| KeyCodec.RoundTrip | crates/common/src/types.rs:376-460 | decoding inverts encoding at every type nested from option, array and vector over the bases |
| KeyCodec.EncWidth | crates/common/src/types.rs:242-244 | a type with a fixed width encodes to exactly that width |
| KeyCodec.Compare | crates/common/src/types.rs:434-460 | byte-level comparison of two encodings says which value comes before the other, as `Before` defines it at each type: numbers by size, bytes and lists at the first difference, none first |
| KeyCodec.CompareVec | crates/common/src/types.rs:717-753 | element by element, then by length |
| KeyCodec.CmpSays | crates/common/src/types.rs:138-141 | the structural order answers Less, Greater and Equal exactly when one value is before the other or neither is |
| KeyCodec.CmpLaws | crates/common/src/types.rs:138-141 | that order is total: equality exactly on equal values, antisymmetric, transitive |

## Left out

- Files, fsync, threads, caches and I/O errors: disks are maps, threads are steps; failed appends or flushes during commit are not modelled.
- CRC32: any function from bytes to 32 bits; torn data pages and the full-page images meant to repair them are not modelled.
- Durability: a logged page change is one step, so the moment between changing a page and marking it dirty is not modelled; pool operations are atomic; the redo point is any value up to the next LSN, which covers the minimum the pool computes.
- Durability: records are taken decoded, and the records found when the log is reopened are taken as durable from then on.
- Durability: one checkpointer; two concurrent checkpoints are not modelled, nor is the unlogged clearing of split flags.
- RedoPages: a record meets a page of the kind it was written for.
- WritePath: the changes whose split flag is cleared without a record are left out; page latches are `BLink`.
- SnapshotIsolation: one key's versions at a time; visibility does not depend on other keys. One tree and one sweep at a time; that the sweep's walk meets every version present when it starts is taken as given.
- SnapshotIsolation: an insert's conflict check over all pages of the key's run is one step.
- GroupFlush: records are named by their LSN; their bytes are `WalBuffer` and `WalCodec`.
- BLink: keys are reals, standing for any countable order; the empty key, which as a high key means unbounded, is therefore not among them.
- BLink: no page deletion: half-dead pages, unlinking and recycling of empty leaves are not modelled.
- BLinkSearch: walking left along a key's run that spans pages, and range scans, are not modelled.
- SplitInsert: the compaction tried before a split and writers in between are left out.
- KeyCodec: strings are byte strings, without the UTF-8 check on decoding; floating-point values, which are not keys, are left out.
- KeyCodec.Compare: defined on encodings, as the index uses it; on malformed bytes the source panics.
- Overflow pages, free-space management, configuration, the command line and benchmarks.
