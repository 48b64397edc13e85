/**
 * log/snapshot.go: a projection's state and the offset it was folded to, written aside,
 * synced, and renamed into place. The first part says what any sequence of operations and
 * power cuts can do to the snapshots on a disk; the second is the code; the third is what
 * restoring is for.
 */
module Snapshots {
  import opened Wrappers
  import opened Bytes
  import opened Events
  import opened Records
  import opened Recovery
  import opened SparseIndex
  import opened Rising
  import opened Names
  import opened Disks
  import opened Owners
  import opened Segments
  import opened Durability
  import opened Preservation
  import opened Runs
  import opened Tracking
  import opened Logs
  import opened Readers

  datatype Snap = Snap(off: nat, state: bytes)

  const SNAPSHOT_SCHEMA: uint16 := 1

  /** The state is the payload; the snapshot's identity is the offset in the record's header. */
  function SnapEvent(state: bytes): Event {
    Event([], 0, SNAPSHOT_SCHEMA, state)
  }

  // ---- Snapshots on a disk ----

  /** The file is one whole snapshot at `off`, synced, of a state somebody wrote there. */
  ghost predicate WholeAt(inodes: seq<Inode>, node: nat, off: nat, written: set<Snap>) {
    && node < |inodes| && inodes[node].data == inodes[node].durable
    && off + 1 < TWO64
    && exists s :: s in written && s.off == off && Framable(SnapEvent(s.state)) && inodes[node].data == Encode(off, SnapEvent(s.state))
  }

  ghost predicate Whole(inodes: seq<Inode>, m: map<string, nat>, written: set<Snap>) {
    forall name :: name in m && ParseSnapshotName(name).Some? ==>
      WholeAt(inodes, m[name], ParseSnapshotName(name).value, written)
  }

  /** Some snapshot at or above `off` is named in `m`. */
  ghost predicate AtLeast(m: map<string, nat>, off: nat) {
    exists name :: name in m && ParseSnapshotName(name).Some? && ParseSnapshotName(name).value >= off
  }

  /** The snapshots in `m` reach exactly as far as `n`. */
  ghost predicate IsNewest(m: map<string, nat>, n: nat) {
    forall off: nat :: AtLeast(m, off) <==> off <= n
  }

  /** Every snapshot on the disk is whole, and the visible ones reach as far as the durable ones. */
  ghost predicate Kept(d: Disk, written: set<Snap>) {
    && Sound(d) && Whole(d.inodes, d.live, written) && Whole(d.inodes, d.durable, written)
    && forall off :: AtLeast(d.durable, off) ==> AtLeast(d.live, off)
  }

  /** An operation on files that are not snapshots. */
  ghost predicate SnapshotsUntouched(d: Disk, e: Disk) {
    && |d.inodes| <= |e.inodes|
    && (forall name :: ParseSnapshotName(name).Some? ==> SameEntry(d.live, e.live, name) && SameEntry(d.durable, e.durable, name))
    && (forall name :: ParseSnapshotName(name).Some? && name in d.live && d.live[name] < |d.inodes| ==>
          e.inodes[d.live[name]] == d.inodes[d.live[name]])
    && (forall name :: ParseSnapshotName(name).Some? && name in d.durable && d.durable[name] < |d.inodes| ==>
          e.inodes[d.durable[name]] == d.inodes[d.durable[name]])
  }

  /** A temporary file holding `s`, synced, is renamed to the name a snapshot at `s.off` has. */
  ghost predicate SwappedIn(d: Disk, e: Disk, tmp: string, s: Snap) {
    && s.off + 1 < TWO64 && tmp in d.live && ParseSnapshotName(tmp).None?
    && Framable(SnapEvent(s.state))
    && Holds(d, d.live[tmp], Encode(s.off, SnapEvent(s.state)), Encode(s.off, SnapEvent(s.state)))
    && e == Renamed(d, tmp, SnapshotName(s.off))
  }

  /** A snapshot is removed while a newer one is visible and durable. */
  ghost predicate RemovedOld(d: Disk, e: Disk, name: string, keep: string) {
    && ParseSnapshotName(name).Some? && ParseSnapshotName(keep).Some?
    && ParseSnapshotName(name).value < ParseSnapshotName(keep).value
    && keep in d.live && keep in d.durable && e == Removed(d, name)
  }

  /** One operation, or a power cut. */
  datatype Move = Touch | SwapIn(tmp: string, snap: Snap) | RemoveOld(name: string, keep: string) | SyncDirectory | Cut(shape: Shape)

  ghost predicate Moves(d: Disk, e: Disk, move: Move, written: set<Snap>) {
    && Sound(e)
    && match move
       case Touch => SnapshotsUntouched(d, e)
       case SwapIn(tmp, s) => s in written && SwappedIn(d, e, tmp, s)
       case RemoveOld(name, keep) => RemovedOld(d, e, name, keep)
       case SyncDirectory => e == DirSynced(d)
       case Cut(shape) => e == PowerCut(d, shape)
  }

  lemma TouchKeeps(d: Disk, e: Disk, written: set<Snap>)
    requires Kept(d, written) && Sound(e) && SnapshotsUntouched(d, e)
    ensures Kept(e, written) && forall off :: AtLeast(d.durable, off) <==> AtLeast(e.durable, off)
  {
    hide ParseSnapshotName, Encode, Framable;
    SameReach(d.live, e.live);
    SameReach(d.durable, e.durable);
  }

  lemma SameReach(a: map<string, nat>, b: map<string, nat>)
    requires forall name :: ParseSnapshotName(name).Some? ==> SameEntry(a, b, name)
    ensures forall off :: AtLeast(a, off) <==> AtLeast(b, off)
  {
    hide ParseSnapshotName;
    forall off ensures AtLeast(a, off) <==> AtLeast(b, off) {
      if AtLeast(a, off) {
        var name :| name in a && ParseSnapshotName(name).Some? && ParseSnapshotName(name).value >= off;
        assert SameEntry(a, b, name);
      }
      if AtLeast(b, off) {
        var name :| name in b && ParseSnapshotName(name).Some? && ParseSnapshotName(name).value >= off;
        assert SameEntry(a, b, name);
      }
    }
  }

  lemma SwapKeeps(d: Disk, e: Disk, tmp: string, s: Snap, written: set<Snap>)
    requires Kept(d, written) && s in written && SwappedIn(d, e, tmp, s)
    ensures Kept(e, written) && e.durable == d.durable && AtLeast(e.live, s.off)
  {
    hide ParseSnapshotName, SnapshotName, Encode, Framable, WholeAt, Directory;
    var name := SnapshotName(s.off);
    ParseSnapshotNameOfName(s.off);
    OperationsAreSound(d, tmp, name);
    WholeNow(d, d.live[tmp], s, written);
    forall off | AtLeast(d.durable, off) ensures AtLeast(e.live, off) {
      var n :| n in d.live && ParseSnapshotName(n).Some? && ParseSnapshotName(n).value >= off;
      assert n in e.live;
    }
    assert name in e.live;
  }

  lemma WholeNow(d: Disk, node: nat, s: Snap, written: set<Snap>)
    requires s in written && s.off + 1 < TWO64 && Framable(SnapEvent(s.state))
    requires Holds(d, node, Encode(s.off, SnapEvent(s.state)), Encode(s.off, SnapEvent(s.state)))
    ensures WholeAt(d.inodes, node, s.off, written)
  {
    hide Encode, Framable;
  }

  lemma RemoveKeeps(d: Disk, e: Disk, name: string, keep: string, written: set<Snap>)
    requires Kept(d, written) && RemovedOld(d, e, name, keep)
    ensures Kept(e, written) && e.durable == d.durable
  {
    hide ParseSnapshotName, WholeAt, Directory;
    OperationsAreSound(d, name, keep);
    forall off | AtLeast(d.durable, off) ensures AtLeast(e.live, off) {
      var n :| n in d.live && ParseSnapshotName(n).Some? && ParseSnapshotName(n).value >= off;
      if n == name {
        assert keep in e.live;
      } else {
        assert n in e.live;
      }
    }
  }

  lemma CutKeepsSnapshots(d: Disk, shape: Shape, written: set<Snap>)
    requires Kept(d, written)
    ensures Kept(PowerCut(d, shape), written) && PowerCut(d, shape).durable == d.durable
  {
    hide ParseSnapshotName, Encode, Framable;
    var e := PowerCut(d, shape);
    forall name | name in d.durable && ParseSnapshotName(name).Some?
      ensures WholeAt(e.inodes, d.durable[name], ParseSnapshotName(name).value, written)
    {
      assert d.durable[name] in d.durable.Values;
      assert WholeAt(d.inodes, d.durable[name], ParseSnapshotName(name).value, written);
      assert e.inodes[d.durable[name]] == d.inodes[d.durable[name]];
    }
  }

  /** Every operation keeps every snapshot whole, and takes back none that a power cut could not already. */
  lemma MoveKeeps(d: Disk, e: Disk, move: Move, written: set<Snap>)
    requires Kept(d, written) && Moves(d, e, move, written)
    ensures Kept(e, written)
    ensures forall off :: AtLeast(d.durable, off) ==> AtLeast(e.durable, off)
  {
    hide SnapshotsUntouched, SwappedIn, RemovedOld, Whole, AtLeast, PowerCut;
    match move
    case Touch => TouchKeeps(d, e, written);
    case SwapIn(tmp, s) => SwapKeeps(d, e, tmp, s, written);
    case RemoveOld(name, keep) => RemoveKeeps(d, e, name, keep, written);
    case SyncDirectory => SyncKeeps(d, written);
    case Cut(shape) => CutKeepsSnapshots(d, shape, written);
  }

  lemma SyncKeeps(d: Disk, written: set<Snap>)
    requires Kept(d, written)
    ensures Kept(DirSynced(d), written)
  {
    hide AtLeast, WholeAt;
  }

  /** The disk's states, each one operation or power cut after the one before. */
  ghost predicate Path(past: seq<Disk>, moves: seq<Move>, written: set<Snap>) {
    |past| == |moves| + 1 && forall i :: 0 <= i < |moves| ==> Moves(past[i], past[i + 1], moves[i], written)
  }

  lemma PathThen(p: seq<Disk>, q: seq<Disk>, first: seq<Move>, more: seq<Move>, written: set<Snap>)
    requires Path(p, first, written) && p <= q && Path(q[|p| - 1..], more, written)
    ensures Path(q, first + more, written)
  {
    hide Moves;
    var all, rest := first + more, q[|p| - 1..];
    forall i | 0 <= i < |all| ensures Moves(q[i], q[i + 1], all[i], written) {
      if i < |first| {
        assert q[i] == p[i] && q[i + 1] == p[i + 1] && all[i] == first[i];
      } else {
        var j := i - |first|;
        assert q[i] == rest[j] && q[i + 1] == rest[j + 1] && all[i] == more[j];
      }
    }
  }

  /**
   * Over any run, with power cuts anywhere in it: whatever snapshot offset was durable at
   * some moment is reached, visibly and durably, by a snapshot at or above it ever after,
   * and every snapshot there is, at every moment, is one whole state somebody wrote.
   */
  lemma {:induction false} NewestNeverFalls(past: seq<Disk>, moves: seq<Move>, written: set<Snap>, i: nat, j: nat)
    requires Path(past, moves, written) && Kept(past[0], written) && i <= j < |past|
    ensures Kept(past[j], written)
    ensures forall off :: AtLeast(past[i].durable, off) ==> AtLeast(past[j].durable, off) && AtLeast(past[j].live, off)
    decreases j
  {
    hide Moves, AtLeast, Whole;
    if j > 0 {
      NewestNeverFalls(past, moves, written, if i < j then i else j - 1, j - 1);
      MoveKeeps(past[j - 1], past[j], moves[j - 1], written);
    }
  }

  // ---- What can be seen ----

  /** No visible snapshot is ahead of the durable ones: no rename waits for its directory sync above them. */
  ghost predicate Backed(d: Disk) {
    forall off :: AtLeast(d.live, off) ==> AtLeast(d.durable, off)
  }

  /** What can be seen reaches as far in `e` as in `d`. */
  ghost predicate SeenStill(d: Disk, e: Disk) {
    forall off :: AtLeast(d.live, off) ==> AtLeast(e.live, off)
  }

  /** A cut takes the newest snapshot out of sight exactly when it is ahead of the durable ones. */
  lemma CutKeepsSeen(d: Disk, shape: Shape)
    ensures SeenStill(d, PowerCut(d, shape)) <==> Backed(d)
    ensures Backed(PowerCut(d, shape))
  {
    hide AtLeast;
  }

  /** No operation does, and only a rename can leave a snapshot ahead. */
  lemma MoveKeepsSeen(d: Disk, e: Disk, move: Move, written: set<Snap>)
    requires Kept(d, written) && Moves(d, e, move, written) && !move.Cut?
    ensures SeenStill(d, e)
    ensures Backed(d) && !move.SwapIn? ==> Backed(e)
    ensures move.SyncDirectory? ==> Backed(e)
  {
    hide ParseSnapshotName, SnapshotName, Encode, Framable, Whole, Directory;
    match move
    case Touch =>
      SameReach(d.live, e.live);
      SameReach(d.durable, e.durable);
    case SwapIn(tmp, s) =>
      ParseSnapshotNameOfName(s.off);
      assert forall name :: name in d.live && ParseSnapshotName(name).Some? ==> name in e.live;
    case RemoveOld(name, keep) =>
      assert keep in e.live;
      assert forall n :: n in e.live <==> n in d.live && n != name;
    case SyncDirectory =>
  }

  /** No cut found a snapshot ahead of the durable ones. */
  ghost predicate NeverAhead(past: seq<Disk>, moves: seq<Move>) {
    |past| == |moves| + 1 && forall k :: 0 <= k < |moves| && moves[k].Cut? ==> Backed(past[k])
  }

  /**
   * The newest snapshot anybody can see never falls, exactly when no power cut comes
   * between the rename of one above the durable ones and the directory sync that makes it
   * durable.
   */
  lemma SeenNeverFalls(past: seq<Disk>, moves: seq<Move>, written: set<Snap>)
    requires Path(past, moves, written) && Kept(past[0], written)
    ensures NeverAhead(past, moves) <==> forall i, j :: 0 <= i <= j < |past| ==> SeenStill(past[i], past[j])
  {
    hide Moves, SeenStill, Backed, Kept;
    if NeverAhead(past, moves) {
      forall i, j | 0 <= i <= j < |past| ensures SeenStill(past[i], past[j]) {
        SeenAlong(past, moves, written, i, j);
      }
    } else {
      var k :| 0 <= k < |moves| && moves[k].Cut? && !Backed(past[k]);
      CutKeepsSeen(past[k], moves[k].shape);
      CutMove(past[k], past[k + 1], moves[k], written);
      assert !SeenStill(past[k], past[k + 1]);
    }
  }

  lemma CutMove(d: Disk, e: Disk, move: Move, written: set<Snap>)
    requires Moves(d, e, move, written) && move.Cut?
    ensures e == PowerCut(d, move.shape)
  {
    hide PowerCut;
  }

  lemma {:induction false} SeenAlong(past: seq<Disk>, moves: seq<Move>, written: set<Snap>, i: nat, j: nat)
    requires Path(past, moves, written) && Kept(past[0], written) && NeverAhead(past, moves) && i <= j < |past|
    ensures SeenStill(past[i], past[j])
    decreases j
  {
    hide Moves, Kept, AtLeast;
    if i < j {
      SeenAlong(past, moves, written, i, j - 1);
      NewestNeverFalls(past, moves, written, 0, j - 1);
      var d, e, move := past[j - 1], past[j], moves[j - 1];
      if move.Cut? {
        CutMove(d, e, move, written);
        CutKeepsSeen(d, move.shape);
      } else {
        MoveKeepsSeen(d, e, move, written);
      }
    }
  }

  /** The disk once a snapshot has been written aside, synced and renamed, with no directory sync after. */
  function Renaming(d: Disk, tmp: string, s: Snap): seq<Disk>
    requires tmp !in d.live
  {
    var node := |d.inodes|;
    var created := Created(d, tmp);
    var filled := Appended(created, node, Encode(s.off, SnapEvent(s.state)));
    var synced := FileSynced(filled, node);
    [d, created, filled, synced, Renamed(synced, tmp, SnapshotName(s.off))]
  }

  /**
   * And it does fall: whatever snapshots a directory has, take a new one above the durable
   * ones, and let the power go after its rename. It was to be seen, and is not any more.
   */
  lemma SeenMayFall(d: Disk, s: Snap, written: set<Snap>, shape: Shape)
    requires Kept(d, written) && s in written && s.off + 1 < TWO64 && Framable(SnapEvent(s.state))
    requires !AtLeast(d.durable, s.off) && SnapshotName(s.off) + COMPACTING_SUFFIX !in d.live
    ensures var tmp := SnapshotName(s.off) + COMPACTING_SUFFIX;
            var past := Renaming(d, tmp, s) + [PowerCut(Renaming(d, tmp, s)[4], shape)];
            && Path(past, [Touch, Touch, Touch, SwapIn(tmp, s), Move.Cut(shape)], written)
            && AtLeast(past[4].live, s.off) && !AtLeast(past[5].live, s.off)
  {
    hide SnapshotName, ParseSnapshotName, Encode, Framable, Whole, Temporary, Directory, Survives, SnapshotsUntouched, Aside,
         NobodyMinds, Minds;
    var tmp, code := SnapshotName(s.off) + COMPACTING_SUFFIX, Encode(s.off, SnapEvent(s.state));
    AsideIsTemporary(SnapshotName(s.off));
    TemporaryIsNothingElse(tmp);
    ParseSnapshotNameOfName(s.off);
    var before, node := Renaming(d, tmp, s), |d.inodes|;
    CreatingAside(d, tmp);
    AppendingAside(before[1], tmp, node, code);
    SyncingAside(before[2], tmp, node);
    OperationsAreSound(d, tmp, tmp);
    AsideIsATouch(d, before[1], written);
    AsideIsATouch(before[1], before[2], written);
    AsideIsATouch(before[2], before[3], written);
    OperationsAreSound(before[3], tmp, SnapshotName(s.off));
    assert [] + code == code && Holds(before[3], node, code, code);
    assert Moves(before[3], before[4], SwapIn(tmp, s), written);
    assert Moves(before[4], PowerCut(before[4], shape), Move.Cut(shape), written);
    assert SnapshotName(s.off) in before[4].live;
  }

  // ---- The code ----

  /** `q` goes on from `p` by these moves. */
  ghost predicate Continues(p: seq<Disk>, q: seq<Disk>, moves: seq<Move>, written: set<Snap>) {
    Framed(p, q, TheSnapshots) && Path(q[|p| - 1..], moves, written)
  }

  lemma NotYet(p: seq<Disk>, written: set<Snap>)
    requires p != []
    ensures Continues(p, p, [], written)
  {
    FramedHere(p, TheSnapshots);
  }

  lemma OneMore(p: seq<Disk>, q: seq<Disk>, moves: seq<Move>, written: set<Snap>, d: Disk, e: Disk, move: Move)
    requires Continues(p, q, moves, written) && d == q[|q| - 1] && Moves(d, e, move, written) && Minds(d, e, TheSnapshots)
    ensures Continues(p, q + [e], moves + [move], written)
  {
    hide Moves, Minds;
    FramedStep(p, q, e, TheSnapshots);
    var past, all := (q + [e])[|p| - 1..], moves + [move];
    assert past == q[|p| - 1..] + [e];
  }

  lemma Standing(log: Log)
    requires log.Tracked()
    ensures log.fs.past != [] && log.fs.past[|log.fs.past| - 1] == log.st.disk == log.fs.View()
  {
    TracksLegal(log.fs.past, log.steps, log.st);
  }

  /** What leaves everything but another's files alone leaves the snapshots alone. */
  lemma KeepsSnapshots(d: Disk, e: Disk, o: Owner)
    requires Keeps(d, e, o) && o != TheSnapshots && Sound(d)
    ensures SnapshotsUntouched(d, e)
  {
    hide Belongs, ParseSnapshotName;
    forall name | ParseSnapshotName(name).Some? ensures SameFile(d, e, name) {
      OneOwner(o, name);
    }
  }

  /** Whatever is done to a temporary file is nothing to the snapshots. */
  lemma AsideIsATouch(d: Disk, e: Disk, written: set<Snap>)
    requires NobodyMinds(d, e) && Sound(d) && Sound(e)
    ensures Moves(d, e, Touch, written) && Minds(d, e, TheSnapshots)
  {
    hide Keeps, SnapshotsUntouched, Directory;
    KeepsSnapshots(d, e, TheLog);
  }

  /** One more move, and every snapshot is still whole. */
  lemma Onward(p: seq<Disk>, q: seq<Disk>, moves: seq<Move>, written: set<Snap>, d: Disk, e: Disk, move: Move)
    requires Continues(p, q, moves, written) && d == q[|q| - 1] && Moves(d, e, move, written) && Kept(d, written)
    requires Minds(d, e, TheSnapshots)
    ensures Continues(p, q + [e], moves + [move], written) && Kept(e, written)
  {
    hide Moves, Continues, Kept, Minds;
    OneMore(p, q, moves, written, d, e, move);
    MoveKeeps(d, e, move, written);
  }

  /** A log, and what its directory says of snapshots. */
  ghost predicate Ready(log: Log, written: set<Snap>)
    reads log, log.fs, log.active, log.sealed.Values
  {
    log.Valid() && Kept(log.st.disk, written)
  }

  /** The temporary file, gone if it was there and then made anew. */
  method BeginSnapshot(log: Log, tmp: string, off: nat, ghost written: set<Snap>)
    returns (r: Result<Segment, Error>, ghost moves: seq<Move>)
    requires Ready(log, written) && Temporary(tmp)
    modifies log.fs, log`origin, log`steps, log`st
    ensures Blames(old(log.fs.refused), log.fs.refused, ErrorOf(r))
    ensures Ready(log, written) && log.st == old(log.st).(disk := log.st.disk)
    ensures Continues(old(log.fs.past), log.fs.past, moves, written)
    ensures r.Err? ==> r.error.Io?
    ensures r.Ok? ==>
              && fresh(r.value) && r.value.Valid() && !r.value.sealed && r.value.recs == [] && r.value.fs == log.fs
              && r.value.base == off && Aside(log.st.disk, tmp, r.value.node)
  {
    hide Log.Consistent, Continues, Kept, Segment.Valid, Aside, NobodyMinds, Moves, Minds, Directory, Temporary;
    ghost var began, d, past := log.fs.past, log.st.disk, log.fs.past;
    moves := [];
    Here(log);
    NotYet(began, written);
    var ok := log.RemoveStale(tmp);
    Here(log);
    SameDisk(d);
    RemovingAside(d, tmp);
    AsideIsATouch(d, log.st.disk, written);
    Onward(began, past, moves, written, d, log.st.disk, Touch);
    moves := moves + [Touch];
    if !ok {
      return Err(Io(Failed)), moves;
    }
    d, past := log.st.disk, log.fs.past;
    r := log.CreateAside(tmp, off);
    Here(log);
    SameDisk(d);
    CreatingAside(d, tmp);
    AsideIsATouch(d, log.st.disk, written);
    Onward(began, past, moves, written, d, log.st.disk, Touch);
    moves := moves + [Touch];
  }

  lemma Here(log: Log)
    requires log.Consistent()
    ensures log.fs.past != [] && log.fs.past[|log.fs.past| - 1] == log.st.disk == log.fs.View() && Sound(log.st.disk)
  {
    hide TracksFrom, Inv, Log.Handle, Log.Cached, Directory;
    Standing(log);
    log.Knows();
  }

  /** The state, framed as one record and synced. */
  method FillSnapshot(log: Log, dst: Segment, tmp: string, off: nat, state: bytes, ghost written: set<Snap>)
    returns (err: Option<Error>, ghost moves: seq<Move>)
    requires Ready(log, written) && off + 1 < TWO64 && Temporary(tmp)
    requires dst.Valid() && !dst.sealed && dst.recs == [] && dst.base == off && dst.fs == log.fs
    requires dst != log.active && dst !in log.sealed.Values && Aside(log.st.disk, tmp, dst.node)
    modifies log.fs, dst, log`origin, log`steps, log`st
    ensures Blames(old(log.fs.refused), log.fs.refused, err)
    ensures Ready(log, written) && log.st == old(log.st).(disk := log.st.disk) && log.st.disk.live == old(log.st.disk.live)
    ensures Continues(old(log.fs.past), log.fs.past, moves, written)
    ensures !Framable(SnapEvent(state)) ==> err == Some(Refused(Reason(SnapEvent(state))))
    ensures Framable(SnapEvent(state)) && err.Some? ==> err == Some(Io(Failed))
    ensures err.None? ==>
              && Framable(SnapEvent(state)) && tmp in log.st.disk.live
              && Holds(log.st.disk, log.st.disk.live[tmp], Encode(off, SnapEvent(state)), Encode(off, SnapEvent(state)))
  {
    hide Log.Consistent, Continues, Kept, Segment.Consistent, Ascending, NobodyMinds, Moves, Minds, Directory, Temporary, Encode, EncodeAll,
         Framable;
    ghost var began, d, past := log.fs.past, log.st.disk, log.fs.past;
    moves := [];
    Here(log);
    NotYet(began, written);
    var e := SnapEvent(state);
    ghost var stored;
    err, stored := log.AppendAside(dst, off, e, tmp);
    if err.Some? && err.value.Refused? {
      return;
    }
    Here(log);
    AppendingAside(d, tmp, dst.node, Encode(off, e)[..stored]);
    AsideIsATouch(d, log.st.disk, written);
    Onward(began, past, moves, written, d, log.st.disk, Touch);
    moves := moves + [Touch];
    if err.Some? {
      return;
    }
    d, past := log.st.disk, log.fs.past;
    var ok := log.SyncAside(dst, tmp);
    Here(log);
    SameDisk(d);
    SyncingAside(d, tmp, dst.node);
    AsideIsATouch(d, log.st.disk, written);
    Onward(began, past, moves, written, d, log.st.disk, Touch);
    moves := moves + [Touch];
    if !ok {
      return Some(Io(Failed)), moves;
    }
    EncodeAllOne(Rec(off, e));
    assert [] + [Rec(off, e)] == [Rec(off, e)];
  }

  /** The rename. */
  method SwapSnapshot(log: Log, tmp: string, s: Snap, ghost written: set<Snap>) returns (ok: bool, ghost move: Move)
    requires Ready(log, written) && s in written && s.off + 1 < TWO64 && Framable(SnapEvent(s.state))
    requires Temporary(tmp) && tmp in log.st.disk.live
    requires Holds(log.st.disk, log.st.disk.live[tmp], Encode(s.off, SnapEvent(s.state)), Encode(s.off, SnapEvent(s.state)))
    modifies log.fs, log`origin, log`steps, log`st
    ensures Blames(old(log.fs.refused), log.fs.refused, Refusing(ok))
    ensures Ready(log, written) && log.st == old(log.st).(disk := log.st.disk)
    ensures Moves(old(log.st.disk), log.st.disk, move, written) && log.fs.past == old(log.fs.past) + [log.fs.View()]
    ensures Minds(old(log.st.disk), log.st.disk, TheSnapshots)
    ensures log.st.disk == if ok then Renamed(old(log.st.disk), tmp, SnapshotName(s.off)) else old(log.st.disk)
  {
    hide TracksFrom, Inv, Log.Handle, Log.Cached, Kept, Encode, Framable, SnapshotName, ParseSnapshotName, Temporary,
         Keeps, SnapshotsUntouched, Directory;
    var name := SnapshotName(s.off);
    ghost var before := log.st;
    log.Knows();
    TemporaryIsNothingElse(tmp);
    NamesOfSnapshots(tmp, s.off);
    var renamed := log.fs.Rename(tmp, name);
    ok := renamed.Ok?;
    move := if ok then SwapIn(tmp, s) else Touch;
    RenamedKeeps(before.disk, tmp, name, TheSnapshots);
    SameKeeps(before.disk, TheSnapshots);
    SameKeeps(before.disk, TheLog);
    KeepsSnapshots(before.disk, before.disk, TheLog);
    log.NotedBy(TheSnapshots, before);
    MoveKeeps(before.disk, log.st.disk, move, written);
  }

  lemma NamesOfSnapshots(tmp: string, off: nat)
    requires Temporary(tmp) && off < TWO64
    ensures Belongs(TheSnapshots, tmp) && Belongs(TheSnapshots, SnapshotName(off))
  {
    hide SnapshotName, ParseSnapshotName, Temporary;
    ParseSnapshotNameOfName(off);
  }

  /** The directory sync. A failure is a failure to make the swap durable, not to make it. */
  method SyncSnapshots(log: Log, ghost written: set<Snap>) returns (ok: bool, ghost move: Move)
    requires Ready(log, written)
    modifies log.fs, log`origin, log`steps, log`st
    ensures Blames(old(log.fs.refused), log.fs.refused, Refusing(ok))
    ensures Ready(log, written)
    ensures Moves(old(log.st.disk), log.st.disk, move, written) && log.fs.past == old(log.fs.past) + [log.fs.View()]
    ensures Minds(old(log.st.disk), log.st.disk, TheSnapshots)
    ensures log.st == if ok then AfterSyncDirectory(old(log.st)) else old(log.st)
  {
    hide Log.Consistent, Kept, Keeps, SnapshotsUntouched, Directory;
    ghost var d := log.st.disk;
    Here(log);
    ok := log.SyncBeside();
    Here(log);
    SameKeeps(d, TheSnapshots);
    SameKeeps(d, TheLog);
    KeepsSnapshots(d, d, TheLog);
    move := if ok then Move.SyncDirectory else Touch;
    MoveKeeps(d, log.st.disk, move, written);
  }

  lemma ContinuesThen(p: seq<Disk>, q: seq<Disk>, r: seq<Disk>, first: seq<Move>, more: seq<Move>, written: set<Snap>)
    requires Continues(p, q, first, written) && Continues(q, r, more, written)
    ensures Continues(p, r, first + more, written)
  {
    hide Moves, Minds;
    FramedThen(p, q, r, TheSnapshots);
    assert r[|p| - 1..][|q[|p| - 1..]| - 1..] == r[|q| - 1..];
    PathThen(q[|p| - 1..], r[|p| - 1..], first, more, written);
  }

  /** `snapshotOffsets`. */
  method SnapshotOffsets(names: seq<string>) returns (offsets: seq<nat>)
    requires Sorted(names)
    ensures Listed(names, offsets, ParseSnapshotName, SnapshotName)
  {
    hide SnapshotName, ParseSnapshotName, Before;
    forall name | ParseSnapshotName(name).Some?
      ensures ParseSnapshotName(name).value < TWO64 && SnapshotName(ParseSnapshotName(name).value) == name
    {
      NameOfParsedSnapshot(name);
    }
    forall a: nat, b: nat | a < TWO64 && b < TWO64 && Before(SnapshotName(a), SnapshotName(b)) ensures a < b {
      ListingAscends(a, b);
    }
    offsets := OffsetsIn(names, ParseSnapshotName, SnapshotName);
  }

  /** One snapshot's name removed, or found already gone, while a newer one is there for good. */
  method Forget(log: Log, off: nat, ghost keep: nat, ghost written: set<Snap>) returns (ok: bool, ghost move: Move)
    requires Ready(log, written) && off < keep < TWO64
    requires SnapshotName(keep) in log.st.disk.live && SnapshotName(keep) in log.st.disk.durable
    modifies log.fs, log`origin, log`steps, log`st
    ensures Blames(old(log.fs.refused), log.fs.refused, Refusing(ok))
    ensures Ready(log, written) && log.st == old(log.st).(disk := log.st.disk)
    ensures log.fs.past == old(log.fs.past) + [log.fs.View()] && Moves(old(log.st.disk), log.st.disk, move, written)
    ensures Minds(old(log.st.disk), log.st.disk, TheSnapshots)
    ensures log.st.disk == old(log.st.disk) || log.st.disk == Removed(old(log.st.disk), SnapshotName(off))
    ensures ok ==> SnapshotName(off) !in log.st.disk.live
  {
    hide TracksFrom, Inv, Log.Handle, Log.Cached, Kept, SnapshotName, ParseSnapshotName, Temporary, Keeps, SnapshotsUntouched,
         Directory;
    ghost var before := log.st;
    log.Knows();
    ParseSnapshotNameOfName(off);
    ParseSnapshotNameOfName(keep);
    var removed := log.fs.Remove(SnapshotName(off));
    RemovedKeeps(before.disk, SnapshotName(off), TheSnapshots);
    SameKeeps(before.disk, TheSnapshots);
    SameKeeps(before.disk, TheLog);
    KeepsSnapshots(before.disk, before.disk, TheLog);
    log.NotedBy(TheSnapshots, before);
    move := if removed.Ok? then RemoveOld(SnapshotName(off), SnapshotName(keep)) else Touch;
    MoveKeeps(before.disk, log.st.disk, move, written);
    ok := removed.Ok? || removed.error == NotExists;
  }

  /** Some names gone from the directory, and not this one; nothing else is different. */
  ghost predicate Trims(before: State, now: State, keep: string) {
    && now == before.(disk := now.disk)
    && now.disk.durable == before.disk.durable && now.disk.inodes == before.disk.inodes
    && (forall name :: name in now.disk.live ==> name in before.disk.live && now.disk.live[name] == before.disk.live[name])
    && (keep in before.disk.live ==> keep in now.disk.live)
  }

  method ForgetOlder(log: Log, off: nat, keep: nat, ghost began: seq<Disk>, ghost moves: seq<Move>, ghost written: set<Snap>)
    returns (ok: bool, ghost more: seq<Move>)
    requires Ready(log, written) && off < keep < TWO64 && Continues(began, log.fs.past, moves, written)
    requires SnapshotName(keep) in log.st.disk.live && SnapshotName(keep) in log.st.disk.durable
    modifies log.fs, log`origin, log`steps, log`st
    ensures Blames(old(log.fs.refused), log.fs.refused, Refusing(ok))
    ensures Ready(log, written) && Continues(began, log.fs.past, more, written)
    ensures Trims(old(log.st), log.st, SnapshotName(keep))
    ensures ok ==> SnapshotName(off) !in log.st.disk.live
  {
    hide Log.Consistent, Kept, Continues, Moves, Minds, Directory, SnapshotName, ParseSnapshotName;
    ghost var d, past := log.st.disk, log.fs.past;
    Here(log);
    ghost var move;
    ParseSnapshotNameOfName(off);
    ParseSnapshotNameOfName(keep);
    ok, move := Forget(log, off, keep, written);
    Here(log);
    OneMore(began, past, moves, written, d, log.fs.View(), move);
    more := moves + [move];
  }

  /** `removeOlderSnapshots`: every one below `keep` goes. */
  method RemoveOlder(log: Log, keep: nat, ghost written: set<Snap>) returns (err: Option<Error>, ghost moves: seq<Move>)
    requires Ready(log, written) && keep < TWO64
    requires SnapshotName(keep) in log.st.disk.live && SnapshotName(keep) in log.st.disk.durable
    modifies log.fs, log`origin, log`steps, log`st
    ensures Blames(old(log.fs.refused), log.fs.refused, err)
    ensures Ready(log, written) && Trims(old(log.st), log.st, SnapshotName(keep))
    ensures Continues(old(log.fs.past), log.fs.past, moves, written)
    ensures err.Some? ==> err == Some(Io(Failed))
    ensures err.None? ==>
              forall name :: name in log.st.disk.live && ParseSnapshotName(name).Some? ==> ParseSnapshotName(name).value >= keep
  {
    hide Log.Valid, Kept, Continues, ParseSnapshotName, SnapshotName, Sorted, Rises;
    Looking(log);
    var names := log.fs.List();
    var offsets := SnapshotOffsets(names);
    ghost var began, before := log.fs.past, log.st;
    moves, err := [], None;
    NotYet(began, written);
    for k := 0 to |offsets|
      invariant Ready(log, written) && Continues(began, log.fs.past, moves, written) && old(log.fs.refused) <= log.fs.refused
      invariant Trims(before, log.st, SnapshotName(keep)) && SnapshotName(keep) in log.st.disk.live
      invariant forall i :: 0 <= i < k && offsets[i] < keep ==> SnapshotName(offsets[i]) !in log.st.disk.live
    {
      if offsets[k] < keep {
        var ok;
        ok, moves := ForgetOlder(log, offsets[k], keep, began, moves, written);
        if !ok {
          return Some(Io(Failed)), moves;
        }
      }
    }
    forall name | name in log.st.disk.live && ParseSnapshotName(name).Some? ensures ParseSnapshotName(name).value >= keep {
      NameOfParsedSnapshot(name);
    }
  }

  lemma Looking(log: Log)
    requires log.Valid()
    ensures log.fs.past != [] && log.fs.View() == log.st.disk && Sound(log.st.disk)
  {
    hide Log.Consistent;
    Here(log);
  }

  /** A visible snapshot at `s.off` holding `s.state`. */
  ghost predicate Visible(d: Disk, s: Snap) {
    var name := SnapshotName(s.off);
    && name in d.live && d.live[name] < |d.inodes| && d.inodes[d.live[name]].data == Encode(s.off, SnapEvent(s.state))
  }

  /**
   * `Snapshot`: written aside and synced, renamed, made durable, and only then are the
   * older ones removed. Whatever fails, and wherever the power goes, what is left is a
   * path of the disk machine above.
   */
  method Snapshot(log: Log, off: nat, state: bytes, ghost written: set<Snap>) returns (err: Option<Error>, ghost moves: seq<Move>)
    requires Ready(log, written) && Snap(off, state) in written && |log.st.hist| + 1 < TWO64
    modifies log.fs, log`origin, log`steps, log`st
    ensures Blames(old(log.fs.refused), log.fs.refused, err)
    ensures Ready(log, written) && log.st.segs == old(log.st.segs) && log.st.hist == old(log.st.hist) && log.st.acked == old(log.st.acked)
    ensures Continues(old(log.fs.past), log.fs.past, moves, written)
    ensures off > |log.st.hist| <==> err == Some(NotFound)
    ensures err.Some? && err.value.Refused? ==>
              !Framable(SnapEvent(state)) && LeftNothing(log.st.disk, SnapshotName(off), old(log.fs.refused), log.fs.refused)
    ensures off <= |log.st.hist| && !Framable(SnapEvent(state)) ==> err.Some? && log.st == old(log.st).(disk := log.st.disk)
    ensures err.Some? ==> err.value == NotFound || err.value == Refused(Reason(SnapEvent(state))) || err.value.Io?
    ensures err.None? ==>
              && Visible(log.st.disk, Snap(off, state)) && SnapshotName(off) in log.st.disk.durable && Backed(log.st.disk)
              && forall name :: name in log.st.disk.live && ParseSnapshotName(name).Some? ==> ParseSnapshotName(name).value >= off
  {
    hide Log.Valid, Kept, Continues, Trims, ParseSnapshotName, ParseSegmentName, Minds, SnapshotName, Encode, Framable, Visible;
    moves := [];
    Looking(log);
    NotYet(log.fs.past, written);
    Ends(log);
    if off > log.active.next {
      return Some(NotFound), [];
    }
    var tmp := SnapshotName(off) + COMPACTING_SUFFIX;
    AsideIsTemporary(SnapshotName(off));
    err, moves := StageSnapshot(log, tmp, Snap(off, state), written);
    if err.Some? {
      return;
    }
    ghost var staged, more := log.fs.past, [];
    err, more := PublishSnapshot(log, tmp, Snap(off, state), written);
    ContinuesThen(old(log.fs.past), staged, log.fs.past, moves, more, written);
    moves := moves + more;
  }

  /** Everything before the rename, and the cleaning up if it fails. */
  method StageSnapshot(log: Log, tmp: string, s: Snap, ghost written: set<Snap>) returns (err: Option<Error>, ghost moves: seq<Move>)
    requires Ready(log, written) && s.off + 1 < TWO64 && Temporary(tmp)
    modifies log.fs, log`origin, log`steps, log`st
    ensures Blames(old(log.fs.refused), log.fs.refused, err)
    ensures Ready(log, written) && log.st == old(log.st).(disk := log.st.disk)
    ensures Continues(old(log.fs.past), log.fs.past, moves, written)
    ensures err.Some? && err.value.Refused? ==>
              !Framable(SnapEvent(s.state)) && (tmp !in log.st.disk.live || log.fs.refused > old(log.fs.refused))
    ensures err.Some? ==> err.value == Refused(Reason(SnapEvent(s.state))) || err.value.Io?
    ensures err.None? ==>
              && Framable(SnapEvent(s.state)) && tmp in log.st.disk.live
              && Holds(log.st.disk, log.st.disk.live[tmp], Encode(s.off, SnapEvent(s.state)), Encode(s.off, SnapEvent(s.state)))
  {
    hide Log.Valid, Kept, Continues, Aside, Segment.Valid, Moves, ParseSnapshotName, ParseSegmentName, Encode, Framable;
    var dst;
    dst, moves := BeginSnapshot(log, tmp, s.off, written);
    if dst.Err? {
      return Some(dst.error), moves;
    }
    ghost var begun, more := log.fs.past, [];
    err, more := FillSnapshot(log, dst.value, tmp, s.off, s.state, written);
    ContinuesThen(old(log.fs.past), begun, log.fs.past, moves, more, written);
    moves := moves + more;
    if err.Some? {
      moves := CleanUp(log, tmp, old(log.fs.past), moves, written);
    }
  }

  method CleanUp(log: Log, tmp: string, ghost began: seq<Disk>, ghost moves: seq<Move>, ghost written: set<Snap>)
    returns (ghost more: seq<Move>)
    requires Ready(log, written) && Temporary(tmp) && Continues(began, log.fs.past, moves, written)
    modifies log.fs, log`origin, log`steps, log`st
    ensures old(log.fs.refused) <= log.fs.refused
    ensures tmp !in log.st.disk.live || log.fs.refused > old(log.fs.refused)
    ensures Ready(log, written) && log.st == old(log.st).(disk := log.st.disk)
    ensures Continues(began, log.fs.past, more, written)
  {
    hide Log.Consistent, Kept, Continues, Moves, Minds, NobodyMinds, Directory, Temporary;
    Here(log);
    ghost var d, past := log.st.disk, log.fs.past;
    var gone := log.RemoveStale(tmp);
    Here(log);
    SameDisk(d);
    RemovingAside(d, tmp);
    AsideIsATouch(d, log.st.disk, written);
    Onward(began, past, moves, written, d, log.st.disk, Touch);
    more := moves + [Touch];
  }

  /** The swap, the directory sync, and then the older ones. */
  method PublishSnapshot(log: Log, tmp: string, s: Snap, ghost written: set<Snap>) returns (err: Option<Error>, ghost moves: seq<Move>)
    requires Ready(log, written) && s in written && s.off + 1 < TWO64 && Framable(SnapEvent(s.state))
    requires Temporary(tmp) && tmp in log.st.disk.live
    requires Holds(log.st.disk, log.st.disk.live[tmp], Encode(s.off, SnapEvent(s.state)), Encode(s.off, SnapEvent(s.state)))
    modifies log.fs, log`origin, log`steps, log`st
    ensures Blames(old(log.fs.refused), log.fs.refused, err)
    ensures Ready(log, written) && log.st.segs == old(log.st.segs) && log.st.hist == old(log.st.hist) && log.st.acked == old(log.st.acked)
    ensures Continues(old(log.fs.past), log.fs.past, moves, written)
    ensures err.Some? ==> err.value.Io?
    ensures err.None? ==>
              && Visible(log.st.disk, s) && SnapshotName(s.off) in log.st.disk.durable && Backed(log.st.disk)
              && forall name :: name in log.st.disk.live && ParseSnapshotName(name).Some? ==> ParseSnapshotName(name).value >= s.off
  {
    hide Log.Consistent, Kept, Continues, Moves, Directory, ParseSnapshotName, ParseSegmentName, Minds, SnapshotName, Encode,
         Framable;
    ghost var began, d, past := log.fs.past, log.st.disk, log.fs.past;
    Here(log);
    NotYet(began, written);
    var ok;
    ghost var move;
    ok, move := SwapSnapshot(log, tmp, s, written);
    Here(log);
    OneMore(began, past, [], written, d, log.fs.View(), move);
    moves := [] + [move];
    if !ok {
      moves := CleanUp(log, tmp, began, moves, written);
      return Some(Io(Failed)), moves;
    }
    err, moves := MakeLast(log, s, began, moves, written);
  }

  method MakeLast(log: Log, s: Snap, ghost began: seq<Disk>, ghost soFar: seq<Move>, ghost written: set<Snap>)
    returns (err: Option<Error>, ghost moves: seq<Move>)
    requires Ready(log, written) && s.off < TWO64 && Visible(log.st.disk, s) && Continues(began, log.fs.past, soFar, written)
    modifies log.fs, log`origin, log`steps, log`st
    ensures Blames(old(log.fs.refused), log.fs.refused, err)
    ensures Ready(log, written) && log.st.segs == old(log.st.segs) && log.st.hist == old(log.st.hist) && log.st.acked == old(log.st.acked)
    ensures Continues(began, log.fs.past, moves, written)
    ensures err.Some? ==> err.value.Io?
    ensures err.None? ==>
              && Visible(log.st.disk, s) && SnapshotName(s.off) in log.st.disk.durable && Backed(log.st.disk)
              && forall name :: name in log.st.disk.live && ParseSnapshotName(name).Some? ==> ParseSnapshotName(name).value >= s.off
  {
    hide Log.Consistent, Kept, Continues, Moves, Directory, ParseSnapshotName, ParseSegmentName, Minds, SnapshotName, Encode;
    Here(log);
    ghost var d, past, move := log.st.disk, log.fs.past, Touch;
    var ok;
    ok, move := SyncSnapshots(log, written);
    Here(log);
    OneMore(began, past, soFar, written, d, log.fs.View(), move);
    moves := soFar + [move];
    if !ok {
      return Some(Io(Failed)), moves;
    }
    ghost var synced, more := log.fs.past, [];
    ghost var whole := log.st.disk;
    err, more := RemoveOlder(log, s.off, written);
    FewerStillBacked(whole, log.st.disk);
    ContinuesThen(began, synced, log.fs.past, moves, more, written);
    moves := moves + more;
  }

  lemma FewerStillBacked(d: Disk, e: Disk)
    requires d.live == d.durable == e.durable && forall name :: name in e.live ==> name in d.live
    ensures Backed(e)
  {
    hide ParseSnapshotName;
  }

  /** What a snapshot is on disk: one record at its offset, with no key, no time, schema 1 and the state. */
  lemma SnapshotsAreThat(d: Disk, s: Snap)
    requires Visible(d, s) && s.off < TWO64 && Framable(SnapEvent(s.state))
    ensures Decode(d.inodes[d.live[SnapshotName(s.off)]].data) == Ok(Record(s.off, Event([], 0, 1, s.state), 28 + |s.state|))
  {
    hide SnapshotName, Encode, Decode, Framable;
    var data := d.inodes[d.live[SnapshotName(s.off)]].data;
    DecodeEncode(s.off, SnapEvent(s.state), []);
    assert data + [] == data;
  }

  /** Scanning a whole snapshot finds its one record. */
  lemma ScanSnapshot(off: nat, e: Event)
    requires off + 1 < TWO64 && Framable(e)
    ensures var f := Scan(Encode(off, e), off);
            f.records == [Rec(off, e)] && f.discarded == 0 && !f.torn && !f.corrupt
    ensures Ascending(off, [Rec(off, e)]) && Below([Rec(off, e)], off) == 0
  {
    hide Encode, EncodeAll, Scan;
    var one := [Rec(off, e)];
    UnframedZeros(0);
    assert Zeros(0) == [] && EncodeAll(one) + [] == EncodeAll(one);
    EncodeAllOne(one[0]);
    ScanExact(off, one, []);
  }

  lemma WhatIsThere(d: Disk, written: set<Snap>, off: nat) returns (s: Snap)
    requires Kept(d, written) && off < TWO64 && SnapshotName(off) in d.live
    ensures off + 1 < TWO64 && s in written && s.off == off && Framable(SnapEvent(s.state)) && Visible(d, s)
  {
    hide SnapshotName, ParseSnapshotName, Encode, Framable, Directory;
    ParseSnapshotNameOfName(off);
    var name := SnapshotName(off);
    assert WholeAt(d.inodes, d.live[name], off, written);
    s :| s in written && s.off == off && Framable(SnapEvent(s.state)) && d.inodes[d.live[name]].data == Encode(off, SnapEvent(s.state));
  }

  /** The snapshot named for `off`, read back. */
  method ReadSnapshot(log: Log, off: nat, ghost written: set<Snap>) returns (r: Result<Snap, Error>)
    requires Ready(log, written) && off < TWO64 && SnapshotName(off) in log.st.disk.live
    modifies log.fs, log`steps, log`st
    ensures Blames(old(log.fs.refused), log.fs.refused, ErrorOf(r))
    ensures Ready(log, written) && log.st == old(log.st)
    ensures r.Err? ==> r.error.Io?
    ensures r.Ok? ==> r.value in written && r.value.off == off && Visible(log.st.disk, r.value)
  {
    hide TracksFrom, Inv, Log.Handle, Log.Cached, Kept, Encode, Scan, SnapshotName, Enabled, Apply,
         Segment.Consistent, Ascending, Directory, Below, Framable;
    log.Knows();
    MayIdle(log.st);
    ghost var s := WhatIsThere(log.st.disk, written, off);
    ScanSnapshot(off, SnapEvent(s.state));
    var seg, f := Segment.OpenNamed(log.fs, SnapshotName(off), off, log.cfg.segment, false);
    assert log.fs.View() == old(log.fs.View()) && log.fs.past[..|log.fs.past| - 1] == old(log.fs.past);
    log.Advance(Other(log.st.disk));
    if seg.Err? {
      return Err(seg.error);
    }
    if f.corrupt || f.torn || |f.records| != 1 {
      assert false;
    }
    var record := seg.value.Read(off);
    r := Ok(Snap(off, record.value.event.payload));
  }

  /** `LatestSnapshot`: the highest offset wins, and nothing but having none makes there be none. */
  method LatestSnapshot(log: Log, ghost written: set<Snap>) returns (r: Result<Option<Snap>, Error>)
    requires Ready(log, written)
    modifies log.fs, log`steps, log`st
    ensures Blames(old(log.fs.refused), log.fs.refused, ErrorOf(r))
    ensures Ready(log, written) && log.st == old(log.st)
    ensures r.Err? ==> r.error.Io?
    ensures r == Ok(None) ==> !AtLeast(log.st.disk.live, 0)
    ensures r.Ok? && r.value.Some? ==>
              && r.value.value in written && Visible(log.st.disk, r.value.value)
              && IsNewest(log.st.disk.live, r.value.value.off)
  {
    hide Log.Valid, Kept, SnapshotName, ParseSnapshotName, Sorted, Visible;
    Looking(log);
    var names := log.fs.List();
    var offsets := SnapshotOffsets(names);
    if offsets == [] {
      return Ok(None);
    }
    var latest := offsets[|offsets| - 1];
    ParseSnapshotNameOfName(latest);
    forall off ensures AtLeast(log.st.disk.live, off) <==> off <= latest {
      if off <= latest {
        assert SnapshotName(latest) in log.st.disk.live;
      }
    }
    var snap := ReadSnapshot(log, latest, written);
    r := if snap.Ok? then Ok(Some(snap.value)) else Err(snap.error);
  }

  /** There is nowhere to begin when a snapshot lies beyond the tail, and only then. */
  ghost predicate Refuses(d: Disk, tail: nat, err: Option<Error>) {
    (err == Some(NotFound) ==> AtLeast(d.live, tail + 1)) && (err.None? ==> !AtLeast(d.live, tail + 1))
  }

  /**
   * `Restore`: the newest snapshot, and a cursor where its replay begins. A snapshot beyond
   * the log's tail, which a power cut can leave when the records below it were not synced,
   * has nowhere to replay from and is refused.
   */
  method Restore(log: Log, ghost written: set<Snap>) returns (r: Result<(Option<Snap>, Reader), Error>)
    requires Ready(log, written)
    modifies log.fs, log`steps, log`st
    ensures Blames(old(log.fs.refused), log.fs.refused, ErrorOf(r))
    ensures Ready(log, written) && log.st == old(log.st)
    ensures r.Ok? || r == Err(NotFound) || r.error.Io?
    ensures Refuses(log.st.disk, |log.st.hist|, ErrorOf(r))
    ensures r.Ok? ==>
              var from := if r.value.0.Some? then r.value.0.value.off else 0;
              && r.value.1.Valid() && r.value.1.log == log && r.value.1.next == from
              && (r.value.0.None? ==> !AtLeast(log.st.disk.live, 0))
              && (r.value.0.Some? ==> r.value.0.value in written && IsNewest(log.st.disk.live, from))
  {
    hide Log.Valid, Kept, ParseSnapshotName, Visible, Placed;
    var snap := LatestSnapshot(log, written);
    if snap.Err? {
      return Err(snap.error);
    }
    var from := if snap.value.Some? then snap.value.value.off else 0;
    var reader := Reader.OpenAt(log, from);
    r := if reader.Ok? then Ok((snap.value, reader.value)) else Err(reader.error);
  }
}
