# A verified model of event-spine

event-spine is a segmented append-only event log written in Go, with a deterministic
command/event core and a simulator that cuts the power on it. This project models the log
(`log/`), the crashable disk it is simulated on (`sim/fs.go`), the command cycle and its hash
chain (`core/`), and the seeded generator (`sim/deps.go`), and proves for every run what the
repository's harness samples.

`dafny verify dfyconfig.toml` checks the project.

## How it is built

There are two layers, a bridge between them, and a place where the parts meet.

**A machine.** `Durability` is a state machine whose steps are single filesystem operations,
short writes, process deaths, reopenings and power cuts of all three shapes. A state is a disk
together with what its bytes mean: segments, records, the history assigned to offsets, and how
much of it was acknowledged. `Preservation` proves that every step keeps the invariant tying
the bytes to the meaning, and `Runs` reads theorems about arbitrary runs off it; `Swaps` adds
what a cut during a compaction can leave, and `Tails` exactly how far back a cut can take the
tail. No theorem there depends on the checksum: a synced prefix of whole records decodes
whatever follows it. `Groups` and `Snapshots` have smaller machines of the same kind for the
commits file and for snapshot files.

**The code.** `Disks.FS`, `Segments.Segment`, `Logs.Log`, `Readers.Reader`, `Groups.Commits`,
`Chains.Chain`, `Cycles.Cycle` and `Sources.Source` are classes with the fields the Go types
have, and their methods follow the Go methods, error paths included. Any filesystem operation
may be refused, and an append may store a prefix. `FS.refused` counts these, and every method's
contract says of every I/O error it returns that the count rose during the call
(`Segments.Blames`): no call returns one on a disk that refuses nothing.

**The bridge.** `FS.past` records every state the disk has been in. `Tracking.Tracks` says that
these are the disks of a legal run of the machine, one operation to a step, and every method of
`Log`, and every commit and snapshot beside it, keeps it. So what holds of all runs holds of the
program at every instant, inside calls as well as between them (`Tracking.CutAtAnyMoment`).

**One directory.** Segments, commits and snapshots are files of three owners in one directory.
`Owners` says which names are whose and what it is to leave the others' files alone; every
operation of each part is shown to do so, or to be a directory sync. To the other two machines
it is then an idle step or a directory sync, so all three run over the same sequence of disks:
that is a `Together.Life`, and the theorems about commits and snapshots are stated again for
lives, with anything at all interleaved. `Stores.Store` is the log as its users hold it, and
each of its methods carries the life on, failures, reopenings and power cuts included.

The smaller files are `Bytes`, `Crc32c`, `Events`, `Records` (framing), `Recovery` (scanning),
`SparseIndex`, `Names`, `Rising` (ascending lists of offsets), `Compaction` (what compaction does
to a list of records), `Appending` (what appending means, one event at a time) and `Replaying`
(folds).

## Where the code and its own words part

- `docs/concepts.md:243-265` says the checksum leaves the offset out; `log/record.go:137-140`
  includes it. The model follows the code, and the damage theorem needs it.
- Acknowledged records need the segment's directory entry to be durable. A process that dies
  between creating a segment and syncing the directory, and is reopened without a power cut,
  finds the file and never syncs the directory again (`Runs.UnnamedSegmentIsLost`). The machine
  therefore lets `Reopen` happen only when the entry is durable.
- `openCommits` syncs the directory when it creates the commits file and not when it finds it
  (`log/group.go:232-243`). If that sync failed and the group is asked for again, commits return
  and are lost with the file in a power cut: a group keeps its place exactly when the entry is
  durable (`Groups.SurvivesIffNamed`).
- `Compact` checks only that some later segment exists (`log/compact.go:60`). An offset inside a
  sealed segment is compacted under that offset's own name, beside the segment, unless nothing is
  to be dropped or a survivor lies below the offset. `Logs.Log.Compact` takes every offset and says
  so: after it returned without an error the log is consistent exactly when the offset is not such
  a one (`Logs.Misplaced`), and `Logs.CompactAtTheWrongOffset` is a run with an offset of each kind.
- `internal/devtools/harness/check.go:205-214` asserts that a commit is at or below the tail on an
  undamaged disk, of runs that commit and snapshot only what is durable
  (`internal/devtools/harness/workload.go:250-257`). The log itself accepts any offset up to the
  tail: a commit is durable when it returns, and the records below it need not be.
  `Together.CommitBeyondTheTail` is a run that ends with a group resuming past the tail, and
  `Together.CommitStaysWithin` says when: a commit stays within the log whatever comes if and only
  if it is at or below what is acknowledged. A program that never commits or snapshots above that
  never sees it (`Together.NothingBeyondTheTail`). Past the tail a group has no cursor
  (`Groups.GroupReader`) and a snapshot is not restored (`Snapshots.Restore`), and nothing else is
  refused.
- The newest snapshot to be seen can fall back, when power goes between the rename and the
  directory sync, and only then: `Snapshots.SeenNeverFalls` has the exact condition and
  `Snapshots.SeenMayFall` a run from any directory. The newest durable one never falls
  (`Snapshots.NewestNeverFalls`).
- `seek` has a branch for a segment with nothing left at or after the cursor, and `Next` a guard
  for a cursor with no segment (`log/reader.go:68-75`, `log/reader.go:131-139`). Without damage
  both are dead: the last record of a segment always survives compaction. In `Readers.Reader`
  they are `assert false`.

## Model

| member | source | states |
|---|---|---|
| `Runs.AcknowledgedSurvives` | log/log.go:242-329 | in every run and from every moment of it, each record below the tail when a sync last returned is, after any continuation with power cuts of any shape, on disk unchanged, or missing only because a later record with its key survives in its segment |
| `Tracking.CutAtAnyMoment` | sim/fs.go:129-264 | the same, for the program: at every state its disk went through, inside calls too, a power cut of any shape leaves everything acknowledged by then |
| `Runs.NothingInvented` | log/recovery.go:101-176 | in every reachable state, every record any segment file scans to is the one its offset was assigned |
| `Runs.SegmentsTile` | log/log.go:188-294 | in every reachable state segments tile the log from offset 0, each ends where the next begins, every segment but the last is whole records whose visible bytes are its synced bytes, and the last is synced records, then others, then a tail no reader takes a record from |
| `Preservation.StepKeeps` | sim/fs.go:49-333 | every step, from writes and short writes to swaps and power cuts, keeps the invariant between bytes and meaning |
| `Preservation.CutKeeps` | sim/fs.go:144-264 | a power cut of any shape keeps the invariant and leaves the synced records of the active segment and possibly some more of it, in order |
| `Preservation.WhatSurvives` | sim/fs.go:144-181 | whatever a cut leaves of a record file is a prefix of its records no shorter than the synced ones, and an unframed tail |
| `Runs.RunRemembers` | log/log.go:320-329 | along every run the acknowledged tail never falls and the history below it never changes |
| `Runs.CutLosesOnlyUnsynced` | log/log.go:296-329 | a cut takes back at most the active segment's unsynced records, from the end |
| `Swaps.CutLeavesOldOrCompacted` | log/compact.go:95-105 | in every reachable state, a power cut leaves each sealed segment either exactly its visible records or a list whose compaction they are |
| `Swaps.OldOrCompactedLater` | log/compact.go:56-126 | from any state, whatever steps follow, what a cut leaves of a sealed segment is what a cut would have left at first or a compaction on from it, and never a mixture |
| `Swaps.CutDuringSwap` | log/compact.go:97-110 | between the rename and the directory sync every segment reads after a cut exactly as a cut before the rename would have left it, and the swapped one is visibly compacted |
| `Swaps.CutReadsKept` | log/compact.go:84-95 | a cut leaves each sealed segment exactly what its durable entry leads to |
| `Tails.StaysWithin` | log/log.go:320-329 | an offset is at or below the tail after every continuation if and only if it is at or below the acknowledged tail now |
| `Tails.RevertedTail` | sim/fs.go:257-264 | a cut that reverts unsynced bytes leaves a log of exactly the acknowledged length |
| `Runs.RecoveryFinds` | log/recovery.go:137-176 | opening after any run finds exactly the active segment's records, the tail's length discarded, and the next offset of the history |
| `Runs.UnnamedSegmentIsLost` | log/log.go:154-175 | from any state that may create a segment, the first or a later one: dying before the directory sync and going on with the file, whatever is written there and synced is gone after a cut of any shape |
| `Runs.SwapKeepsListing` | sim/fs.go:87-104 | renaming a file to a given base's segment name leaves a directory that lists exactly the log's segments if and only if the base is one of theirs; when `Compact` gets as far is `Logs.Log.Compact` |
| `Tracking.TracksStep` | core/fs.go:52-115 | an operation that is an enabled step extends the run the program is on, and the invariant holds after it |
| `Tracking.FirstAcknowledgement` | log/log.go:242-252 | creating a segment, syncing the directory, writing one record and syncing it is a legal run that acknowledges it, so the theorems about runs are not about nothing |
| `Tracking.EveryMomentIsReachable` | core/fs.go:52-115 | each state the disk has been in is the disk of a reachable machine state |
| `Tracking.StepMinds` | core/fs.go:52-115 | every step of the log changes only segment files and its own temporary file, or is a directory sync |
| `Tracking.KeepsSegments` | log/group.go:12-18 | an operation on commits or snapshots leaves every segment's entries and bytes alone |
| `Owners.OneOwner` | log/group.go:12-18 | no name belongs to two of the segments, the commits and the snapshots |
| `Logs.Log.Open` | log/log.go:74-176 | a directory opens to exactly its segments, with the recovery of the last one, and an empty one gets segment 0; the mode, interval, clock and segment options are the caller's, with 1024 records, 64 MiB and 4096 bytes where the caller said nothing; a batch interval without a clock is refused, and nothing else but by the disk |
| `Logs.Log.Append` | log/log.go:188-226 | segments and history are those of appending one event at a time up to the first refused one, offsets are the next ones, no handle moves; a segment is rolled when it holds the configured bytes and no sooner, and only for a record to go into the next; nothing is at risk after it in Sync mode, fewer than SyncRecords are counted and the last sync is less than SyncInterval ago in Batch mode; it fails only if the disk refused something |
| `Appending.RollsWhenFull` | log/log.go:194-198 | of appending one event at a time: every segment left behind holds the limit, every record went into a segment that held less, and none is begun for nothing |
| `Logs.Log.AppendSome` | log/log.go:194-219 | one turn of the loop takes at least one event or reports the refusal, so the loop ends and the branch that accepts no records is unreachable |
| `Logs.Log.CutTakesNoMoreThanCounted` | log/log.go:209-226 | a cut now takes back at most `sinceSync` records, plus any found unsynced at opening and not synced since |
| `Logs.Log.CreateSegment` | log/log.go:242-252 | a created segment is empty, under a name no file had, and durable by name; any failure ends the run |
| `Logs.Log.Roll` | log/log.go:272-294 | everything so far is acknowledged, a new segment begins where the log ends, and the old one stays open under its base |
| `Logs.Log.MaybeSync` | log/log.go:297-314 | when each mode's sync is due, by records or by time; due, everything is acknowledged and the counters start again, and not due, nothing at all happens |
| `Logs.Log.Sync` | log/log.go:320-329 | everything appended is acknowledged and nothing is at risk |
| `Logs.Log.Read` | log/log.go:333-339 | unless the disk refused something during the call: the event the history has at the offset if the segment holding the offset still has its record, and not found if it was superseded there or the offset is beyond the tail |
| `Logs.Log.SegmentFor` | log/log.go:342-370 | the segment whose stretch holds the offset, open and valid, and no open handle is replaced |
| `Logs.Log.BaseAfter` | log/log.go:374-380 | the least base above, and none exactly from the active base on |
| `Logs.Log.Compact` | log/compact.go:56-126 | for every offset: the segment becomes its newest record per key and nothing else changes, or which error; the log stays consistent after success if and only if the offset is not a misplaced one; nothing is rewritten when nothing is dropped, a refused copy is cleaned away, and the report accounts for every record and byte; at every state the disk went through, a cut of any shape leaves the segment as a cut before the call would have or a compaction on from that |
| `Logs.CompactAtTheWrongOffset` | log/compact.go:60-83 | a legal run with a sealed segment inside which one offset is misplaced and another is not |
| `Logs.Log.CompactAll` | log/compact.go:206-225 | every sealed segment compacted, one report each, or a prefix of them when one fails |
| `Logs.Log.SurvivorsOf` | log/compact.go:132-152 | the offsets of the compacted records |
| `Logs.Log.WriteCompacted` | log/compact.go:159-194 | a synced temporary file of exactly the compacted records, shared with no segment, while the log stays as it was |
| `Logs.Log.RemoveStale` | log/compact.go:197-203 | the name is gone, or the removal failed; no segment's entry moves |
| `Logs.CompactingKeepsNewest` | log/compact.go:32-55 | compacting any number of segments keeps the newest record of every key over the whole log, and where each segment ends |
| `Logs.CompactingTwice` | log/compact.go:76-83 | a second pass changes nothing |
| `Compaction.SurvivesIffNewest` | log/compact.go:132-152 | a record survives if and only if no later record in its segment has its key |
| `Compaction.DroppedIsSuperseded` | log/compact.go:49-55 | for each record there is a survivor with its key at or after it |
| `Compaction.NewestSurvives` | log/compact.go:32-55 | the newest record per key is the same before and after |
| `Compaction.LastSurvives` | log/segment.go:331-353 | the last record survives, so the next offset does not move |
| `Compaction.CompactedTwice` | log/compact.go:76-83 | compaction is idempotent on records |
| `Compaction.MapValuesSurvive` | log/compact.go:132-152 | the values of the key-to-offset map are exactly the surviving offsets |
| `Compaction.CopyingSurvivors` | log/compact.go:168-187 | copying the records at those offsets, in file order, is compaction |
| `Readers.Interleave` | log/reader.go:38-146 | under any sequence of appends, syncs, compactions and reads, a cursor delivers in strictly ascending order, each once, every record that still survives between where it began and where it stands; and if the disk refuses nothing, nothing fails and as many reads in a row as the log has offsets reach its end |
| `Readers.Reader.Next` | log/reader.go:56-90 | the least surviving record at or after the cursor, end of log if and only if the cursor is at the tail, and an I/O error only if the disk refused something during the call |
| `Readers.Reader.Seek` | log/reader.go:93-107 | out of range exactly beyond the tail; otherwise the cursor stands on the least surviving offset at or after the target, unless the disk refused something |
| `Readers.Reader.SeekTo` | log/reader.go:115-146 | the owning segment always has a record at or after an offset below the tail, so the search ends in it |
| `Readers.Reader.OpenAt` | log/reader.go:43-49 | a cursor at any offset up to the tail, and at no other |
| `Readers.AppendKeepsPlace` | log/log.go:272-294 | appends and rolls leave every current cursor at the byte where its next record is or will be |
| `Readers.LeastInSegment` | log/reader.go:82-90 | within a segment's stretch its own next record is the log's |
| `Appending.OneWrite` | log/segment.go:263-323 | one `AppendAll` on a segment with room takes a non-empty prefix or refuses the first event, and leaves the rest to be appended as it would have been |
| `Appending.AppendInTwoCalls` | log/log.go:188-226 | a batch in one call or split over two ends in the same segments |
| `Appending.AppendExtends` | log/log.go:188-226 | appending adds records at the end and does nothing else: no segment moves and no offset is used again |
| `Segments.Segment.AppendAll` | log/segment.go:263-323 | exactly the events that fit, stamped with the next offsets, in one write; a failed write stores a prefix and seals |
| `Segments.Segment.AppendAt` | log/segment.go:331-353 | one record at a chosen offset no lower than the next, or which error |
| `Segments.Segment.LocateFrom` | log/segment.go:396-424 | agrees with a linear scan for every offset, gaps included, and lands within the index interval of the entry it starts from for a present offset and within that and one record for a gap |
| `Segments.Segment.Read` | log/segment.go:360-389 | the record at the offset if and only if the segment holds one |
| `Segments.Segment.ReadRecordFrom` | log/segment.go:182-220 | reading header then body is decoding at that position, and torn past the end of the file |
| `Segments.Segment.ScanFile` | log/recovery.go:137-176 | the loop computes the recursive scan, and rebuilds the index that appending the same records would have built |
| `Segments.Segment.OpenNamed` | log/recovery.go:101-134 | what the scan found is what the segment holds; the tail is cut off exactly when asked and there is one |
| `Segments.Segment.CreateNamed` | log/segment.go:134-149 | an empty segment in a new file, or the disk as it was |
| `Segments.ScanReencodes` | log/recovery.go:137-176 | on any bytes at all, what a scan keeps re-encodes to exactly the prefix it validated |
| `SparseIndex.WalkBound` | log/segment.go:396-424 | the walk from the owning index entry is shorter than the interval for a present offset and than the interval and one record for a gap |
| `SparseIndex.EntriesAscend` | log/segment.go:224-230 | index entries ascend in offset and position and stay within the records |
| `SparseIndex.EntriesApart` | log/segment.go:224-230 | no two entries are closer than the interval |
| `Rising.Search` | log/segment.go:406-407 | where a list that passes a point for good passes it; used on the index and on the bases |
| `Logs.SegmentBases` | log/log.go:129-152 | exactly the bases of a sorted listing, ascending |
| `Recovery.ScanWholeRecords` | log/recovery.go:146-176 | whole records are found whatever follows them, and the scan goes on from there |
| `Recovery.ScanTornRecord` | log/recovery.go:146-176 | records then a strict prefix of one more: exactly the list, the prefix discarded, torn |
| `Recovery.ScanZeroTail` | log/recovery.go:146-176 | records then zeros: exactly the list, the zeros discarded, torn or corrupt by length |
| `Recovery.ScanDamagedRecord` | log/recovery.go:146-176 | one damaged byte outside a length field: exactly the records before it, corrupt, and never a wrong record |
| `Recovery.CutWholeRecords` | sim/fs.go:168-181 | cutting a record file anywhere leaves every whole record before the cut and an unframed tail |
| `Records.AppendRecord` | log/record.go:104-140 | the buffer gains one record with every field in its place in so many bytes, and in bytes 12 to 15 the CRC32C of the offset and of everything from byte 16; or the event is refused, as invalid exactly when a field is out of its range and as too long exactly above 64 MiB, and nothing changes |
| `Records.TornExactly` | log/record.go:162-178 | a buffer is torn if and only if it ends before its header or before the length in it, if that is between 28 bytes and 64 MiB |
| `Records.DecodeEncode` | log/record.go:162-205 | every framable event decodes to itself, its offset and its length, whatever follows |
| `Records.EncodeDecode` | log/record.go:162-205 | every byte string that decodes begins with the re-encoding of what it decoded to |
| `Records.PrefixIsTorn` | log/record.go:162-178 | every strict prefix of a record is torn and never corrupt |
| `Records.OneByteDamage` | log/record.go:124-183 | changing any one byte of a record outside its length field makes it corrupt, for records of every size |
| `Records.BodyIsCanonical` | core/event.go:79-99 | bytes from 16 on are the event's canonical encoding |
| `Crc32c.OneByteChangesUpdate` | log/record.go:124-140 | one changed byte always changes the CRC32C (section 12.1 of RFC 3720) |
| `Crc32c.ChecksumIsRemainder` | log/record.go:65-140 | the checksum is the remainder of long division, coefficient by coefficient, by x^32 + x^28 + x^27 + x^26 + x^25 + x^23 + x^22 + x^20 + x^19 + x^18 + x^14 + x^13 + x^11 + x^10 + x^9 + x^8 + x^6 + 1, with the first 32 bits and the result complemented (section 12.1 of RFC 3720) |
| `Crc32c.ChecksumOfA` | log/record.go:65-140 | the checksum of "a" is the number everybody's CRC32C gives |
| `Crc32c.UpdateInTwo` | log/record.go:137-140 | summing two parts one after the other is summing the whole |
| `Events.CanonicalInjective` | core/event.go:87-99 | events whose keys fit the length field have distinct encodings |
| `Names.ListingAscends` | log/snapshot.go:157-158 | names compare in listing order exactly as their offsets compare as numbers |
| `Names.ParseSegmentNameOfName` | log/segment.go:64-83 | a segment's name parses to its base |
| `Names.NameOfParsedSegment` | log/segment.go:73-83 | whatever parses as a segment is that segment's name |
| `Names.ParseSnapshotNameOfName` | log/snapshot.go:40-62 | a snapshot's name parses to its offset |
| `Names.NameOfParsedSnapshot` | log/snapshot.go:48-62 | whatever parses as a snapshot is that snapshot's name |
| `Names.TemporaryIsNothingElse` | log/compact.go:10-15 | a file being written aside parses as neither a segment nor a snapshot and is not the commits file |
| `Names.KindsAreDistinct` | log/group.go:12-18 | snapshots and the commits file are no segments |
| `Names.FileNames` | log/segment.go:64-67 | twenty decimal digits, each in its place, then .log; snapshot- and the same digits and .state; and the other two names |
| `Names.BeforeMeans` | sim/fs.go:107-117 | listing order is decided by the first difference, and a name follows its beginnings |
| `Disks.SyncedFileSurvives` | sim/fs.go:119-127 | a synced file outlives a cut of any shape if and only if its directory entry is durable |
| `Disks.CutFiles` | sim/fs.go:257-264 | the pass over durable entries cuts exactly the files they name, once each |
| `Disks.FS.Cut` | sim/fs.go:137-181 | the disk afterwards is the power-cut disk: of each durably named file what was synced, and after it nothing, zeros to the old length, or so many hundredths of the rest, rounded down |
| `Disks.FS.Rename` | sim/fs.go:87-104 | the entry moves, replacing what the new name had, and no inode changes |
| `Disks.FS.List` | sim/fs.go:107-117 | exactly the live names, strictly in order |
| `Groups.CommitSurvives` | log/group.go:92-141 | in every run, with failed writes, failed syncs and cuts, once the file's entry is durable a group recovers from the bytes to an offset it asked for, in an attempt no earlier than its last commit that returned |
| `Groups.SurvivesIffNamed` | log/group.go:232-243 | a group that committed is found after every continuation if and only if the file's directory entry is durable |
| `Groups.NeverUnasked` | log/group.go:99-107 | no group ever recovers to an offset it did not ask for |
| `Groups.StepKeeps` | log/group.go:108-141 | every step of the commits file keeps each record matched to its attempt, in order, and each returned commit among the synced records |
| `Groups.CutShows` | sim/fs.go:144-264 | a power cut on the disk is the commits machine's cut |
| `Groups.Commits.Commit` | log/group.go:108-141 | not found exactly beyond the log's tail; which machine steps each outcome took; on success the map has the commit, the file one more record, which is it, and both the write and the sync happened; on error the map is unchanged; a sealed file, an event that cannot be framed and a refusing disk are the only other errors; the log stays valid and nobody else's file is touched |
| `Groups.OpenCommits` | log/group.go:221-254 | opening truncates or creates and syncs, the map is the last commit per group in the bytes, the log stays valid and nobody else's file is touched |
| `Groups.Replay` | log/group.go:257-270 | the last-wins fold, if and only if every record is in place and is a commit |
| `Groups.DecodeCommitted` | log/group.go:277-285 | a commit's payload decodes to the offset committed |
| `Groups.CommitsAreThat` | log/group.go:108-127 | a commit's event has the group as its key, the time, schema 1, and the offset in eight bytes |
| `Groups.CommitsAreApart` | log/group.go:12-18 | creating the commits file, writing it, truncating it and syncing it leave everybody else's entries and bytes alone |
| `Groups.BesideShows` | log/group.go:12-18 | whatever the log or a snapshot does is to the commits file an idle step or a directory sync |
| `Groups.GroupReader` | log/group.go:148-170 | a cursor on the log the commits belong to, at the committed offset or at the first for a new group; none exactly when it lies beyond the tail |
| `Snapshots.NewestNeverFalls` | log/snapshot.go:64-112 | over any run with cuts, the newest durable snapshot offset never falls, the visible one never falls below it, and every snapshot is one whole written state |
| `Snapshots.SeenNeverFalls` | log/snapshot.go:64-112 | over any run, the newest visible snapshot offset never falls if and only if no cut finds a visible snapshot above every durable one |
| `Snapshots.CutKeepsSeen` | log/snapshot.go:103-109 | a cut keeps the newest visible offset if and only if no visible snapshot is above every durable one |
| `Snapshots.SeenMayFall` | log/snapshot.go:103-109 | from any directory, a snapshot above the durable ones that is renamed and not followed by a directory sync is seen and, after a cut, is not |
| `Snapshots.KeepsSnapshots` | log/snapshot.go:39-62 | whatever the log or a commit does leaves every snapshot's entries and bytes alone |
| `Snapshots.MoveKeeps` | log/snapshot.go:74-112 | every operation on the directory keeps that |
| `Snapshots.Snapshot` | log/snapshot.go:74-112 | not found exactly beyond the tail; on success the snapshot is visible, durable, the lowest left and behind no visible one that is not durable; a state too long to frame leaves nothing behind; every outcome is a path of such operations that touch nobody else's file, and the log stays valid |
| `Snapshots.RemoveOlder` | log/snapshot.go:173-187 | only names below the one kept go, and on success all of them |
| `Snapshots.SnapshotOffsets` | log/snapshot.go:151-166 | exactly the snapshot offsets of a sorted listing, ascending, without sorting |
| `Snapshots.LatestSnapshot` | log/snapshot.go:115-148 | the highest snapshot, whole and as written; none exactly when there is none |
| `Snapshots.SnapshotsAreThat` | log/snapshot.go:86-93 | a snapshot's file decodes to one record at its offset, with no key, no time, schema 1 and the state |
| `Snapshots.Restore` | log/snapshot.go:201-217 | unless the disk refused something during the call: the newest snapshot and a cursor at its offset, or at the first without one, if and only if no snapshot lies beyond the tail; otherwise not found |
| `Together.Moment` | core/fs.go:52-115 | at every moment of a life all three machines describe the disk there is, and all their invariants hold |
| `Together.CommitAtAnyMoment` | log/group.go:92-141 | whatever is appended, rolled, compacted or snapshotted after a commit returned, and wherever in between a cut of any shape comes, the group resumes from the bytes where it asked to, in an attempt no earlier |
| `Together.NeverUnaskedBeside` | log/group.go:99-107 | no group resumes at an offset it did not ask for, whatever else the program did |
| `Together.SnapshotAtAnyMoment` | log/snapshot.go:64-112 | likewise a snapshot once durable is reached by a whole one ever after |
| `Together.NothingBeyondTheTail` | internal/devtools/harness/check.go:205-214 | a life in which every commit asked for and every snapshot swapped in was at or below the acknowledged tail of its time has none beyond the tail at any moment, cuts included |
| `Together.CommitStaysWithin` | internal/devtools/harness/workload.go:380-391 | a group's commit is at or below the tail after every continuation in which it does not commit again, if and only if it is at or below the acknowledged tail now |
| `Together.SnapshotStaysWithin` | log/snapshot.go:201-217 | the same of a durable snapshot |
| `Together.CommitBeyondTheTail` | internal/devtools/harness/check.go:205-214 | a life that appends one record, commits at the tail without a sync and loses power ends with the group at 1 and the log at 0 |
| `Together.CutGoesOn` | sim/fs.go:129-181 | a power cut of any shape is one step of all three machines |
| `Stores.LogWent` | log/log.go:101-127 | a life goes on by whatever the log did on its own, and the other two kept theirs |
| `Stores.Store.Append` | log/log.go:188-226 | an append carries the life on, failures included, and forgets nothing acknowledged or committed; opened in Sync mode, a cut of any shape after an append that returned leaves the whole history; opened in Batch mode, fewer than SyncRecords, or 1024, are counted |
| `Stores.Store.Sync` | log/log.go:320-329 | so does a sync, after which everything is acknowledged |
| `Stores.Store.Read` | log/log.go:333-339 | so does a read, which changes neither the log nor the commits |
| `Stores.Store.Compact` | log/compact.go:56-126 | so does compacting one segment |
| `Stores.Store.CompactAll` | log/compact.go:206-225 | so does compacting everything |
| `Stores.Store.OpenGroups` | log/group.go:221-254 | the commits are opened beside the running log, from whatever the life left in the bytes |
| `Stores.Store.Commit` | log/group.go:108-141 | a commit carries the life on; if it returned it is its group's last that did, and if everything was within the acknowledged tail and it was too, everything still is |
| `Stores.Store.GroupReader` | log/group.go:148-170 | never refused while everything asked for was within the acknowledged tail |
| `Stores.Store.Snapshot` | log/snapshot.go:74-112 | a snapshot carries the life on, whatever fails |
| `Stores.Store.Restore` | log/snapshot.go:201-217 | never refused for being beyond the tail while everything was within the acknowledged tail |
| `Stores.Store.Open` | log/log.go:129-176 | a directory that has been through any life opens, with the same segments and history, and the life goes on |
| `Stores.Store.PowerFails` | sim/fs.go:129-181 | so it does through a power cut, which forgets nothing acknowledged or durably committed |
| `Stores.WithinTheTail` | internal/devtools/harness/check.go:205-214 | while everything asked for is within the acknowledged tail, nothing on the disk is beyond the tail |
| `Replaying.RestoreReplays` | log/snapshot.go:189-217 | for every projection, a snapshot at or below the acknowledged tail and the records a cursor there delivers fold to what the whole log folds to, after any continuation that compacts nothing |
| `Replaying.RestoreNeedsTheSamePast` | log/snapshot.go:22-37 | for every projection, replay onto a snapshot equals full replay if the log still begins with what was folded; for the projection that keeps everything, only if |
| `Replaying.WholeDelivery` | log/reader.go:56-90 | a cursor that reads an uncompacted log to its end delivers exactly its history |
| `Chains.SameDigestSameHistory` | core/chain.go:44-71 | chains with equal digests folded the same facts in the same order, or two different byte strings with one hash are exhibited |
| `Chains.OverlongKeysCollide` | core/event.go:87-99 | without validation the encoding is not injective: a key of a multiple of 65536 bytes encodes as none |
| `Chains.Chain.Advance` | core/chain.go:54-67 | the digest is the hash of the digest before, the event's canonical bytes and the projection's digest, in that order; counts and last change follow the history with one more fact |
| `Chains.DomainSpelled` | core/chain.go:18 | the first thing hashed is the domain and a zero byte |
| `Chains.Chain.Absorbed` | core/chain.go:89-94 | true if and only if the window is positive and the last window + 1 projection digests are equal |
| `Chains.StillSince` | core/chain.go:76-94 | how far back equal digests reach is steps since the last change |
| `Cycles.LiveIsReplay` | core/cycle.go:68-131 | folding the events a live run returned ends in the same projection and chain |
| `Cycles.BatchingIsInvisible` | core/cycle.go:116-131 | however valid events are cut into batches, folding them ends in the same place, poisoned or not |
| `Cycles.LiveIsReadBack` | core/cycle.go:111-131 | so does folding them as a cursor delivers them from an uncompacted log |
| `Cycles.ChainedSteps` | core/cycle.go:134-143 | exactly the events before the first that fails are chained, in order, each with the digest of the projection that had just folded it |
| `Cycles.StopsThere` | core/cycle.go:134-143 | the apply that fails is the first that the projection, after all the events before, cannot do |
| `Cycles.LeftThere` | core/cycle.go:134-143 | and the projection is where the events so far, with the failed one, left it |
| `Cycles.Cycle.Submit` | core/cycle.go:81-114 | which of poisoned, invalid command, rejected and invalid event i is answered, each exactly under its guard, and none otherwise; a rejected or invalid command changes neither projection nor chain; otherwise the decider's events are applied and returned, each at the clock's time and under its own key or, without one, the command's |
| `Cycles.Cycle.Fold` | core/cycle.go:121-131 | nothing is applied unless every event is valid, and the first invalid one is named |
| `Cycles.Cycle.Apply` | core/cycle.go:134-143 | one chain step per event until one fails, and then poisoned |
| `Sources.Source.Intn` | sim/deps.go:105-119 | terminates; the answer is below the bound and is the high word of the first accepted draw |
| `Sources.EqualShares` | sim/deps.go:99-119 | each value below n is given by exactly floor(2^64/n) draws, a run of consecutive words, and by no other |
| `Sources.EveryOutputOnce` | sim/deps.go:91-97 | from any seed, of the numbers of draws under 2^64 exactly one, and which, ends in a given output |
| `Sources.MixIsBijective` | sim/deps.go:91-97 | the mixing function has a two-sided inverse |
| `Sources.KnownAnswers` | sim/sim_test.go:12-25 | the first five outputs from seed zero are those published |
| `Sources.AllOnesAccepted` | sim/deps.go:110-117 | the word of all ones is accepted under every bound |

## Left out

- Closing files: handles are never closed in the model, and `Close` errors do not exist.
- Calls on a log after a failed sync, roll or write: such a failure ends the run, as in the harness; the process is then down until the log is reopened.
- A compaction whose directory sync failed: the model ends the run there rather than let readers go on with the old handle.
- Retrying a directory sync after a failed segment creation: the run ends instead (`Runs.UnnamedSegmentIsLost` shows why it must).
- Damage to segments on disk while the log runs: sealed segments are undamaged in every reachable state, so the refusals of `openSealedSegment` and read errors on existing segments do not occur; damage is covered at the level of scans.
- Damage to a length field and damage to more than one byte: not guaranteed to be caught.
- Offsets at 2^64: appends and snapshots require that the offset space is not exhausted, where the code would wrap.
- The clock: its readings are parameters, and a commit's time is the reading or, without a clock, zero.
- What `SyncInterval` bounds in a run: the clock may move backwards, so no more is stated than that after an append the last sync is less than the interval ago.
- Logs.Log.Open: requires that the newest segment's directory entry is durable, where the code opens any directory; acknowledging what is written after opening any other is a promise the next cut breaks (`Runs.UnnamedSegmentIsLost`).
- Segments.Segment.AppendAt: requires a segment that is not sealed, which the code does not test; both callers have just created theirs.
- Stores.Store.Compact: takes only an offset that is a segment's base; a misplaced compaction leaves a log that is shown to be inconsistent, and it is not followed further.
- The sort of segment bases in `Open`: redundant, since the listing is already in order (`Names.ListingAscends`).
- `CommitHistory`, `Groups`, `Segments`, `First`, `Next` and the other accessors, which return copies or counts of fields that are modelled.
- `ValidateName`, `Overwrite`, `Clone`, `Size`: no claim depends on them.
- Buffer reuse, slice aliasing, allocation, error texts, and the speed of the checksum table.
- SHA-256: an arbitrary function into 32 bytes. Counters of the chain are unbounded.
- Deciders that keep state of their own, and dependency injection: a decider is a function of the projection and the command.
- Timers, identifiers, the scheduler, the real filesystem, the command line, and the harness's fault scheduling.
