/**
 * log/group.go: consumer groups. A commit is one record in one file, written and then
 * synced; a group resumes from the last of its records that a restart finds. The first
 * half is the commits file as a machine, with attempts that fail at any point and power
 * cuts of any shape; the second half is the code that takes those steps.
 */
module Groups {
  import opened Wrappers
  import opened Bytes
  import opened Events
  import opened Records
  import opened Recovery
  import opened SparseIndex
  import opened Names
  import opened Disks
  import opened Owners
  import opened Segments
  import Durability
  import Preservation
  import opened Tracking
  import opened Logs
  import opened Readers

  const COMMIT_SCHEMA: uint16 := 1
  const COMMIT_PAYLOAD_LEN: nat := 8

  /** One attempt to commit: who asked, for what, and when. */
  datatype Ask = Ask(group: bytes, off: nat, time: int64)

  function CommitEvent(a: Ask): Event {
    Event(a.group, a.time, COMMIT_SCHEMA, Little(a.off, COMMIT_PAYLOAD_LEN))
  }

  /** `decodeCommit`: the shape of a record off a disk is checked rather than assumed. */
  function DecodeCommit(e: Event): Result<nat, Damage> {
    if e.schema != COMMIT_SCHEMA then Err(Corrupt)
    else if |e.payload| != COMMIT_PAYLOAD_LEN then Err(Corrupt)
    else Ok(Number(e.payload))
  }

  lemma DecodeCommitted(a: Ask)
    requires a.off < TWO64
    ensures DecodeCommit(CommitEvent(a)) == Ok(a.off)
  {
    WordSizes();
    NumberOfLittle(a.off, COMMIT_PAYLOAD_LEN);
  }

  /** What a commit is on disk: the group as the key, schema 1, and the offset in eight bytes, lowest first. */
  ghost predicate IsCommit(e: Event, group: bytes, off: nat, time: int64) {
    && e.key == group && e.time == time && e.schema == 1
    && |e.payload| == 8 && Number(e.payload) == off
  }

  lemma CommitsAreThat(a: Ask)
    requires a.off < TWO64
    ensures IsCommit(CommitEvent(a), a.group, a.off, a.time)
  {
    WordSizes();
    NumberOfLittle(a.off, COMMIT_PAYLOAD_LEN);
  }

  /** And nothing else is taken for one. */
  lemma OnlyThatDecodes(e: Event)
    ensures DecodeCommit(e).Ok? <==> e.schema == 1 && |e.payload| == 8
    ensures DecodeCommit(e).Ok? ==> IsCommit(e, e.key, DecodeCommit(e).value, e.time)
  {
  }

  /** The last committed offset per group, if every record is a commit. */
  function LastPerGroup(rs: seq<Rec>): map<bytes, nat> {
    if rs == [] then map[]
    else
      var r := rs[|rs| - 1];
      var before := LastPerGroup(rs[..|rs| - 1]);
      if DecodeCommit(r.event).Ok? then before[r.event.key := DecodeCommit(r.event).value] else before
  }

  // ---- The machine ----

  datatype State = State(
    /** Whether the file is in the live directory, and whether its entry is durable. */
    exists_: bool,
    named: bool,
    file: Inode,
    /** The file's records, how many are synced, and the bytes after them. */
    recs: seq<Rec>,
    synced: nat,
    tail: bytes,
    /** Whether a process has it open, and whether a failed write sealed it since. */
    up: bool,
    sealed: bool,
    /** Every attempt ever made, in order, and which of them each record is. */
    asked: seq<Ask>,
    from: seq<nat>,
    /** An attempt is written and its sync has not come back. */
    pending: bool,
    /** For each group, its last attempt that returned and was not lost with a file nobody had named. */
    returned: map<bytes, nat>)

  datatype Step =
    | Create
    | SyncDirectory
    | Write(ask: Ask)
    | ShortWrite(ask: Ask, stored: nat)
    | SyncReturns
    | SyncFails
    | Kill
    | Cut(shape: Shape)
    | Reopen
    | Idle

  const INIT: State := State(false, false, Inode([], []), [], 0, [], false, false, [], [], false, map[])

  predicate Askable(s: State, a: Ask) {
    && s.up && !s.sealed && !s.pending
    && a.off < TWO64 && Framable(CommitEvent(a)) && |s.recs| + 1 < TWO64
  }

  predicate Enabled(s: State, step: Step) {
    match step
    case Create => !s.exists_
    case SyncDirectory => s.exists_
    case Write(a) => Askable(s, a)
    case ShortWrite(a, stored) => Askable(s, a) && stored < RecordLen(CommitEvent(a))
    case SyncReturns => s.pending && s.from != [] && s.asked != []
    case SyncFails => s.pending
    case Kill => s.up
    case Cut(_) => true
    case Reopen => s.exists_
    case Idle => true
  }

  function Written(s: State, a: Ask): bytes {
    Encode(|s.recs|, CommitEvent(a))
  }

  function Apply(s: State, step: Step): State
    requires Enabled(s, step)
  {
    match step
    case Create => s.(exists_ := true, named := false, file := Inode([], []), up := true, sealed := false)
    case SyncDirectory => s.(named := true)
    case Write(a) =>
      s.(file := s.file.(data := s.file.data + Written(s, a)), recs := s.recs + [Rec(|s.recs|, CommitEvent(a))],
         asked := s.asked + [a], from := s.from + [|s.asked|], pending := true)
    case ShortWrite(a, stored) =>
      s.(file := s.file.(data := s.file.data + Written(s, a)[..stored]), tail := Written(s, a)[..stored],
         sealed := true, asked := s.asked + [a])
    case SyncReturns =>
      s.(file := s.file.(durable := s.file.data), synced := |s.recs|, pending := false,
         returned := s.returned[s.asked[|s.asked| - 1].group := |s.asked| - 1])
    case SyncFails => s.(pending := false)
    case Kill => s.(up := false, pending := false)
    case Cut(shape) =>
      if !s.named then
        s.(exists_ := false, file := Inode([], []), recs := [], from := [], synced := 0, tail := [],
           up := false, sealed := false, pending := false, returned := map[])
      else
        var data := Survives(s.file, shape);
        var f := Scan(data, 0);
        s.(file := s.file.(data := data), recs := f.records,
           from := if |f.records| <= |s.from| then s.from[..|f.records|] else s.from,
           tail := if f.valid <= |data| then data[f.valid..] else [],
           up := false, sealed := false, pending := false)
    case Reopen => s.(file := s.file.(data := EncodeAll(s.recs)), tail := [], up := true, sealed := false, pending := false)
    case Idle => s
  }

  /** Record `i` is attempt `from[i]`, and attempts are recorded in the order they were made. */
  ghost predicate Recorded(recs: seq<Rec>, from: seq<nat>, asked: seq<Ask>) {
    && |from| == |recs| < TWO64
    && (forall i :: 0 <= i < |recs| ==> from[i] < |asked| && recs[i] == Rec(i, CommitEvent(asked[from[i]])))
    && (forall i, j :: 0 <= i < j < |from| ==> from[i] < from[j])
    && (forall i :: 0 <= i < |asked| ==> asked[i].off < TWO64 && Framable(CommitEvent(asked[i])))
  }

  /** Each group's last attempt that returned is among the synced records. */
  ghost predicate Held(returned: map<bytes, nat>, from: seq<nat>, asked: seq<Ask>, synced: nat) {
    forall g :: g in returned ==>
      returned[g] < |asked| && asked[returned[g]].group == g && exists i :: 0 <= i < synced && i < |from| && from[i] == returned[g]
  }

  ghost predicate Inv(s: State) {
    && Recorded(s.recs, s.from, s.asked)
    && s.synced <= |s.recs|
    && Held(s.returned, s.from, s.asked, s.synced)
    && s.file == Inode(EncodeAll(s.recs) + s.tail, EncodeAll(s.recs[..s.synced]))
    && Unframed(s.tail) && (s.up && !s.sealed ==> s.tail == [])
    && (s.named ==> s.exists_) && (s.up ==> s.exists_)
    && (!s.exists_ ==> s.recs == [] && s.returned == map[] && s.tail == [])
    && (s.pending ==> s.up && !s.sealed && s.recs != [] && s.from[|s.recs| - 1] == |s.asked| - 1)
  }

  lemma RecordedAscends(recs: seq<Rec>, from: seq<nat>, asked: seq<Ask>)
    requires Recorded(recs, from, asked)
    ensures Ascending(0, recs) && NextOf(0, recs) == |recs| == |from|
  {
    hide Framable;
  }

  /** What is held stays held while the synced records keep their attempts. */
  lemma HeldStill(returned: map<bytes, nat>, from: seq<nat>, asked: seq<Ask>, synced: nat,
                  now: seq<nat>, more: seq<Ask>, longer: nat)
    requires Held(returned, from, asked, synced) && synced <= longer && asked <= more && synced <= |from| && synced <= |now|
    requires now[..synced] == from[..synced]
    ensures Held(returned, now, more, longer)
  {
    forall g | g in returned ensures exists i :: 0 <= i < longer && i < |now| && now[i] == returned[g] {
      var i :| 0 <= i < synced && i < |from| && from[i] == returned[g];
      assert now[..synced][i] == from[..synced][i];
    }
  }

  lemma RecordedPrefix(recs: seq<Rec>, from: seq<nat>, asked: seq<Ask>, k: nat)
    requires Recorded(recs, from, asked) && k <= |recs|
    ensures Recorded(recs[..k], from[..k], asked)
  {
    hide Framable;
  }

  lemma InitHolds()
    ensures Inv(INIT)
  {
    assert EncodeAll([]) == [];
  }

  lemma WriteKeeps(s: State, a: Ask)
    requires Inv(s) && Enabled(s, Write(a))
    ensures Inv(Apply(s, Write(a)))
  {
    hide EncodeAll, Encode, Framable, Held, Unframed;
    var one := Rec(|s.recs|, CommitEvent(a));
    var t := Apply(s, Write(a));
    EncodeAllConcat(s.recs, [one]);
    EncodeAllOne(one);
    assert t.recs[..s.synced] == s.recs[..s.synced] && t.from[..s.synced] == s.from[..s.synced];
    assert EncodeAll(s.recs) + [] == EncodeAll(s.recs);
    HeldStill(s.returned, s.from, s.asked, s.synced, t.from, t.asked, s.synced);
  }

  lemma ShortWriteKeeps(s: State, a: Ask, stored: nat)
    requires Inv(s) && Enabled(s, ShortWrite(a, stored))
    ensures Inv(Apply(s, ShortWrite(a, stored)))
  {
    hide EncodeAll, Encode, Framable, Unframed;
    UnframedStrictPrefix(Rec(|s.recs|, CommitEvent(a)), stored);
    assert EncodeAll(s.recs) + [] == EncodeAll(s.recs);
  }

  lemma SyncReturnsKeeps(s: State)
    requires Inv(s) && Enabled(s, SyncReturns)
    ensures Inv(Apply(s, SyncReturns))
  {
    hide EncodeAll, Framable, Unframed, Held, Recorded, Ascending;
    assert s.recs[..|s.recs|] == s.recs && EncodeAll(s.recs) + [] == EncodeAll(s.recs);
    RecordedAscends(s.recs, s.from, s.asked);
    HeldOneMore(s.returned, s.from, s.asked, s.synced);
  }

  lemma HeldOneMore(returned: map<bytes, nat>, from: seq<nat>, asked: seq<Ask>, synced: nat)
    requires Held(returned, from, asked, synced) && synced <= |from| && from != [] && asked != []
    requires from[|from| - 1] == |asked| - 1
    ensures Held(returned[asked[|asked| - 1].group := |asked| - 1], from, asked, |from|)
  {
  }

  /** A cut keeps a prefix of the records no shorter than what was synced, if the file has a durable name. */
  lemma CutKeeps(s: State, shape: Shape) returns (k: nat)
    requires Inv(s)
    ensures Inv(Apply(s, Cut(shape)))
    ensures k <= |s.recs| && Apply(s, Cut(shape)).recs == s.recs[..k]
    ensures if s.named then s.synced <= k else k == 0
  {
    hide EncodeAll, Framable, Unframed, Survives, Scan, Held, Recorded, Ascending;
    if !s.named {
      k := 0;
      EmptyEncoding();
      NothingHeld(s.asked);
      RecordedPrefix(s.recs, s.from, s.asked, 0);
    } else {
      RecordedAscends(s.recs, s.from, s.asked);
      var t;
      k, t := Preservation.WhatSurvives(0, s.recs, s.tail, s.synced, shape);
      Preservation.AscendingPrefix(0, s.recs, k);
      ScanExact(0, s.recs[..k], t);
      var after := Apply(s, Cut(shape));
      assert (EncodeAll(s.recs[..k]) + t)[|EncodeAll(s.recs[..k])|..] == t;
      assert s.recs[..k][..s.synced] == s.recs[..s.synced] && s.from[..k][..s.synced] == s.from[..s.synced];
      RecordedPrefix(s.recs, s.from, s.asked, k);
      HeldStill(s.returned, s.from, s.asked, s.synced, after.from, s.asked, s.synced);
    }
  }

  lemma NothingHeld(asked: seq<Ask>)
    ensures Held(map[], [], asked, 0)
  {
  }

  lemma EmptyEncoding()
    ensures EncodeAll([]) == [] && Unframed([])
  {
  }

  lemma ReopenKeeps(s: State)
    requires Inv(s) && Enabled(s, Reopen)
    ensures Inv(Apply(s, Reopen))
  {
    hide EncodeAll, Framable;
    assert EncodeAll(s.recs) + [] == EncodeAll(s.recs);
  }

  lemma StepKeeps(s: State, step: Step)
    requires Inv(s) && Enabled(s, step)
    ensures Inv(Apply(s, step))
  {
    match step
    case Write(a) => WriteKeeps(s, a);
    case ShortWrite(a, stored) => ShortWriteKeeps(s, a, stored);
    case SyncReturns => SyncReturnsKeeps(s);
    case Cut(shape) => var _ := CutKeeps(s, shape);
    case Reopen => ReopenKeeps(s);
    case Create =>
      EmptyEncoding();
    case SyncDirectory =>
    case SyncFails =>
    case Kill =>
    case Idle =>
  }

  // ---- Every run ----

  ghost predicate Legal(s: State, steps: seq<Step>)
    decreases |steps|
  {
    steps == [] || (Enabled(s, steps[0]) && Legal(Apply(s, steps[0]), steps[1..]))
  }

  ghost function Run(s: State, steps: seq<Step>): State
    requires Legal(s, steps)
    decreases |steps|
  {
    if steps == [] then s else Run(Apply(s, steps[0]), steps[1..])
  }

  /** No attempt is forgotten, and once the file is durable a group's last returned attempt only moves forward. */
  ghost predicate Remembers(s: State, t: State) {
    && s.asked <= t.asked
    && (s.named ==> t.named && forall g :: g in s.returned ==> g in t.returned && s.returned[g] <= t.returned[g])
  }

  lemma StepRemembers(s: State, step: Step)
    requires Inv(s) && Enabled(s, step)
    ensures Remembers(s, Apply(s, step))
  {
    hide EncodeAll, Encode, Framable, Unframed, Survives, Scan, Recorded;
  }

  lemma {:induction false} RunKeeps(s: State, steps: seq<Step>)
    requires Inv(s) && Legal(s, steps)
    ensures Inv(Run(s, steps)) && Remembers(s, Run(s, steps))
    decreases |steps|
  {
    hide Inv, Apply, Enabled;
    if steps != [] {
      StepKeeps(s, steps[0]);
      StepRemembers(s, steps[0]);
      RunKeeps(Apply(s, steps[0]), steps[1..]);
    }
  }

  /** What a restart would find committed, from the bytes alone. */
  function Recovered(s: State): map<bytes, nat> {
    LastPerGroup(Scan(s.file.data, 0).records)
  }

  lemma RecoveredIs(s: State)
    requires Inv(s)
    ensures Scan(s.file.data, 0).records == s.recs
  {
    hide EncodeAll, Framable, Unframed, Scan, Recorded, Held, Ascending;
    RecordedAscends(s.recs, s.from, s.asked);
    ScanExact(0, s.recs, s.tail);
  }

  /** A group's recovered offset is the one in its last record. */
  lemma {:induction false} LastRecordWins(recs: seq<Rec>, from: seq<nat>, asked: seq<Ask>, g: bytes) returns (i: nat)
    requires Recorded(recs, from, asked)
    ensures g !in LastPerGroup(recs) ==> forall j :: 0 <= j < |recs| ==> asked[from[j]].group != g
    ensures g in LastPerGroup(recs) ==>
              && i < |recs| && asked[from[i]].group == g && LastPerGroup(recs)[g] == asked[from[i]].off
              && forall j :: i < j < |recs| ==> asked[from[j]].group != g
    decreases |recs|
  {
    hide Framable, DecodeCommit;
    i := 0;
    if recs != [] {
      var n := |recs| - 1;
      var a := asked[from[n]];
      RecordedPrefix(recs, from, asked, n);
      DecodeCommitted(a);
      i := LastRecordWins(recs[..n], from[..n], asked, g);
      if a.group == g {
        i := n;
      }
    }
  }

  /**
   * Take any run, including commits whose write or sync failed and power cuts, and any
   * moment in it at which the file's directory entry is durable. A group that had committed
   * by then recovers, after any continuation, to an offset it asked for, in an attempt no
   * earlier than its last commit that returned.
   */
  lemma CommitSurvives(before: seq<Step>, after: seq<Step>, g: bytes) returns (n: nat)
    requires Legal(INIT, before) && Legal(Run(INIT, before), after)
    requires Run(INIT, before).named && g in Run(INIT, before).returned
    ensures var s, t := Run(INIT, before), Run(Run(INIT, before), after);
            && g in Recovered(t) && s.returned[g] <= n < |t.asked|
            && t.asked[n].group == g && t.asked[n].off == Recovered(t)[g]
  {
    hide Inv, Apply, Enabled, Recovered;
    InitHolds();
    RunKeeps(INIT, before);
    RunKeeps(Run(INIT, before), after);
    n := HeldRecovers(Run(Run(INIT, before), after), g);
  }

  /**
   * And only then: `openCommits` syncs the directory when it creates the file and not when
   * it finds it, so a file whose first directory sync failed is used again unnamed. A group
   * that committed keeps its place whatever comes exactly when the entry is durable.
   */
  lemma SurvivesIffNamed(s: State, g: bytes)
    requires Inv(s) && g in s.returned
    ensures s.named <==> forall steps :: Legal(s, steps) ==> g in Recovered(Run(s, steps))
  {
    hide Inv, Apply, Enabled, Recovered;
    if s.named {
      forall steps | Legal(s, steps) ensures g in Recovered(Run(s, steps)) {
        RunKeeps(s, steps);
        var _ := HeldRecovers(Run(s, steps), g);
      }
    } else {
      var cut := [Cut(Reverted)];
      assert Legal(s, cut) && Run(s, cut) == Apply(s, Cut(Reverted)) by {
        JustCut(s, Reverted);
      }
      LostWithItsName(s, Reverted);
    }
  }

  lemma JustCut(s: State, shape: Shape)
    ensures Enabled(s, Cut(shape)) && Legal(s, [Cut(shape)]) && Run(s, [Cut(shape)]) == Apply(s, Cut(shape))
  {
    hide Apply;
    assert [Cut(shape)][1..] == [];
    assert Legal(Apply(s, Cut(shape)), []);
  }

  lemma LostWithItsName(s: State, shape: Shape)
    requires Inv(s) && !s.named
    ensures Recovered(Apply(s, Cut(shape))) == map[]
  {
    hide Inv, Scan;
    var cut := Apply(s, Cut(shape));
    var _ := CutKeeps(s, shape);
    RecoveredIs(cut);
  }

  lemma HeldRecovers(t: State, g: bytes) returns (n: nat)
    requires Inv(t) && g in t.returned
    ensures g in Recovered(t) && t.returned[g] <= n < |t.asked| && t.asked[n].group == g && t.asked[n].off == Recovered(t)[g]
  {
    hide EncodeAll, Framable, Unframed, Scan, LastPerGroup;
    RecoveredIs(t);
    var i := LastRecordWins(t.recs, t.from, t.asked, g);
    var k :| 0 <= k < t.synced && k < |t.from| && t.from[k] == t.returned[g];
    assert t.asked[t.from[k]].group == g;
    n := t.from[i];
  }

  /** No group ever resumes at an offset nobody asked it to. */
  lemma NeverUnasked(steps: seq<Step>, g: bytes) returns (n: nat)
    requires Legal(INIT, steps) && g in Recovered(Run(INIT, steps))
    ensures var t := Run(INIT, steps);
            n < |t.asked| && t.asked[n].group == g && t.asked[n].off == Recovered(t)[g]
  {
    hide Apply, Enabled, EncodeAll, Framable, Unframed, Scan, Held;
    InitHolds();
    RunKeeps(INIT, steps);
    var t := Run(INIT, steps);
    RecoveredIs(t);
    var i := LastRecordWins(t.recs, t.from, t.asked, g);
    n := t.from[i];
  }

  // ---- The file on the disk ----

  /** The directory and the inode are what the state says. */
  ghost predicate Shows(d: Disk, s: State) {
    && (s.exists_ <==> COMMITS_FILE in d.live)
    && (s.exists_ ==> d.live[COMMITS_FILE] < |d.inodes| && d.inodes[d.live[COMMITS_FILE]] == s.file)
    && (s.named <==> COMMITS_FILE in d.durable)
    && (s.named ==> s.exists_ && d.durable[COMMITS_FILE] == d.live[COMMITS_FILE])
    && (s.exists_ ==> forall name :: name in d.durable && name != COMMITS_FILE ==> d.durable[name] != d.live[COMMITS_FILE])
  }

  /** A power cut on the disk is the machine's cut. */
  lemma CutShows(d: Disk, s: State, shape: Shape)
    requires Sound(d) && Shows(d, s)
    ensures Shows(PowerCut(d, shape), Apply(s, Cut(shape)))
  {
    hide Survives, Scan;
    if s.named {
      assert d.durable[COMMITS_FILE] in d.durable.Values;
    }
  }

  /** The commits file is reached by its own name and no other. */
  lemma CommitsArePrivate(d: Disk, s: State)
    requires Sound(d) && Shows(d, s) && s.exists_
    ensures Private(d, d.live[COMMITS_FILE], TheCommits)
  {
    hide ParseSegmentName, ParseSnapshotName, Temporary;
  }

  /** Creating the file, writing to it, cutting its tail off and syncing it are nothing to anybody else. */
  lemma CommitsAreApart(d: Disk, s: State, p: bytes, size: nat)
    requires Sound(d) && Shows(d, s)
    ensures Keeps(d, d, TheCommits)
    ensures !s.exists_ ==> Keeps(d, Created(d, COMMITS_FILE), TheCommits)
    ensures s.exists_ ==> Keeps(d, Appended(d, d.live[COMMITS_FILE], p), TheCommits)
    ensures s.exists_ ==> Keeps(d, FileSynced(d, d.live[COMMITS_FILE]), TheCommits)
    ensures s.exists_ && size <= |s.file.data| ==> Keeps(d, Truncated(d, d.live[COMMITS_FILE], size), TheCommits)
  {
    hide Keeps, Private, Directory;
    SameKeeps(d, TheCommits);
    if s.exists_ {
      var node := d.live[COMMITS_FILE];
      CommitsArePrivate(d, s);
      BytesKeep(d, node, s.file.(data := s.file.data + p), TheCommits);
      BytesKeep(d, node, s.file.(durable := s.file.data), TheCommits);
      if size <= |s.file.data| {
        BytesKeep(d, node, s.file.(data := s.file.data[..size]), TheCommits);
      }
    } else {
      CreatedKeeps(d, COMMITS_FILE, TheCommits);
    }
  }

  /** To the commits file, what anybody else does is nothing at all, or a directory sync. */
  ghost function Beside(d: Disk, e: Disk, s: State): Step {
    if e == DirSynced(d) && s.exists_ then SyncDirectory else Idle
  }

  lemma BesideShows(d: Disk, e: Disk, o: Owner, s: State)
    requires Sound(d) && Sound(e) && Shows(d, s) && Minds(d, e, o) && o != TheCommits
    ensures Enabled(s, Beside(d, e, s)) && Shows(e, Apply(s, Beside(d, e, s)))
  {
    hide ParseSegmentName, ParseSnapshotName, Temporary, Belongs;
    OneOwner(o, COMMITS_FILE);
    if e != DirSynced(d) {
      assert SameFile(d, e, COMMITS_FILE);
    }
  }

  /** The states the disk went through are the machine's, one operation to a step. */
  ghost predicate Traced(past: seq<Disk>, s: State, steps: seq<Step>)
    decreases |steps|
  {
    && |past| == |steps|
    && (steps != [] ==> Enabled(s, steps[0]) && Shows(past[0], Apply(s, steps[0])) && Traced(past[1..], Apply(s, steps[0]), steps[1..]))
  }

  /** A commits file no reader will refuse: every record in place, and every record a commit. */
  predicate Replayable(rs: seq<Rec>) {
    forall i :: 0 <= i < |rs| ==> rs[i].offset == i && rs[i].event.schema == 1 && |rs[i].event.payload| == 8
  }

  /** `replay`: the last commit per group, unless something in the file is not a commit. */
  method Replay(seg: Segment) returns (r: Result<map<bytes, nat>, Error>)
    requires seg.Valid() && seg.base == 0
    ensures r.Ok? <==> Replayable(seg.recs)
    ensures r.Ok? ==> r.value == LastPerGroup(seg.recs)
    ensures r.Err? ==> r.error == NotFound || r.error == Damaged(Corrupt)
  {
    hide EncodeAll, IndexOf, DecodeCommit, Segment.Consistent;
    ghost var rs := seg.recs;
    seg.NextIs();
    var at: map<bytes, nat> := map[];
    var k := 0;
    while k < seg.next
      invariant k <= |rs| && k <= seg.next && Replayable(rs[..k]) && at == LastPerGroup(rs[..k])
      invariant k == |rs| ==> k == seg.next
    {
      InPlaceSoFar(rs, k);
      var read := seg.Read(k);
      if read.Err? {
        assert rs[k].offset != k;
        return Err(NotFound);
      }
      OnlyThatDecodes(read.value.event);
      var off := DecodeCommit(read.value.event);
      if off.Err? {
        return Err(Damaged(Corrupt));
      }
      at := at[read.value.event.key := off.value];
      assert rs[..k + 1][..k] == rs[..k];
      k := k + 1;
    }
    assert rs[..k] == rs;
    r := Ok(at);
  }

  lemma InPlaceSoFar(rs: seq<Rec>, k: nat)
    requires Ascending(0, rs) && k < |rs| && Replayable(rs[..k])
    ensures Below(rs, k) == k
  {
    hide DecodeCommit;
    assert forall i :: 0 <= i < k ==> rs[i] == rs[..k][i];
    if k > 0 {
      assert rs[k - 1].offset < rs[k].offset;
    }
    BelowIs(rs, k, k);
  }

  /** The log's handles are on files of its own. */
  lemma HandlesApart(log: Log, seg: Segment)
    requires log.Consistent() && COMMITS_FILE in log.st.disk.live && seg.node == log.st.disk.live[COMMITS_FILE]
    ensures seg != log.active && !HeldBy(log, seg)
  {
    hide TracksFrom, Durability.Inv, Log.Handle;
    log.Knows();
    var n := |log.st.segs| - 1;
    NotThatFile(log, log.active, n, seg);
    forall i | 0 <= i < n && log.st.segs[i].base in log.sealed ensures log.sealed[log.st.segs[i].base] != seg {
      assert log.st.segs[..n][i] == log.st.segs[i];
      NotThatFile(log, log.sealed[log.st.segs[i].base], i, seg);
    }
  }

  lemma NotThatFile(log: Log, h: Segment, i: nat, seg: Segment)
    requires Durability.Inv(log.st) && i < |log.st.segs| && log.Handle(h, log.st.segs[i], log.st.disk.live)
    requires COMMITS_FILE in log.st.disk.live && seg.node == log.st.disk.live[COMMITS_FILE]
    ensures h != seg
  {
    hide Durability.Inv, SegmentName, ParseSegmentName, Segment.Settled;
    SoundNow(log.st);
    ParsedNames(log.st);
    KindsAreDistinct(0);
  }

  /** `seg` is the handle the log has on some sealed segment. */
  ghost predicate HeldBy(log: Log, seg: Segment)
    reads log`st, log`sealed
  {
    exists i :: 0 <= i < |log.st.segs| - 1 && log.st.segs[i].base in log.sealed && log.sealed[log.st.segs[i].base] == seg
  }

  lemma TailOf(log: Log)
    requires log.Valid()
    ensures log.active.next == |log.st.hist| < TWO64 && log.fs.past != []
  {
    hide Log.Handle, Log.Cached, Durability.Stored;
    log.Knows();
    Ends(log);
  }

  /** Every offset in the map is one its group asked for. */
  ghost predicate AllAsked(at: map<bytes, nat>, asked: seq<Ask>) {
    forall g :: g in at ==> exists n :: 0 <= n < |asked| && asked[n].group == g && asked[n].off == at[g]
  }

  lemma AllAskedStill(at: map<bytes, nat>, asked: seq<Ask>, more: seq<Ask>)
    requires AllAsked(at, asked) && asked <= more
    ensures AllAsked(at, more)
    ensures more != [] ==> AllAsked(at[more[|more| - 1].group := more[|more| - 1].off], more)
  {
    forall g | g in at ensures exists n :: 0 <= n < |more| && more[n].group == g && more[n].off == at[g] {
      var n :| 0 <= n < |asked| && asked[n].group == g && asked[n].off == at[g];
      assert more[n] == asked[n];
    }
  }

  lemma AllAskedFor(s: State)
    requires Inv(s)
    ensures AllAsked(LastPerGroup(s.recs), s.asked)
  {
    hide EncodeAll, Framable, Unframed, Held, LastPerGroup;
    forall g | g in LastPerGroup(s.recs)
      ensures exists n :: 0 <= n < |s.asked| && s.asked[n].group == g && s.asked[n].off == LastPerGroup(s.recs)[g]
    {
      var i := LastRecordWins(s.recs, s.from, s.asked, g);
      assert s.asked[s.from[i]].group == g;
    }
  }

  class Commits {
    const log: Log
    const fs: FS
    const seg: Segment

    /** The latest committed offset per group. */
    var at: map<bytes, nat>

    ghost var st: State
    /** No commit has failed since the file was opened. */
    ghost var intact: bool

    /** The handle is on the file the machine describes. */
    ghost predicate Linked()
      reads this`st, fs, seg
    {
      && seg.fs == fs == log.fs && seg.Valid() && seg.base == 0
      && COMMITS_FILE in fs.live && fs.live[COMMITS_FILE] == seg.node
      && Shows(fs.View(), st) && Inv(st)
      && st.up && st.sealed == seg.sealed && st.recs == seg.recs
    }

    /** Between commits: and unless one failed, the map is what the file says. */
    ghost predicate Valid()
      reads this, fs, seg
    {
      Linked() && !st.pending && (intact ==> at == LastPerGroup(st.recs)) && AllAsked(at, st.asked)
    }

    constructor (log: Log, seg: Segment, at: map<bytes, nat>, ghost st: State)
      requires Attached(log.fs, seg, st)
      requires Shows(seg.fs.View(), st) && Inv(st) && at == LastPerGroup(st.recs)
      ensures Valid() && this.log == log && this.seg == seg && this.fs == seg.fs && this.st == st && this.at == at && intact
    {
      hide EncodeAll, LastPerGroup, Segment.Consistent, AllAsked;
      AllAskedFor(st);
      this.log, this.fs, this.seg, this.at, this.st, intact := log, seg.fs, seg, at, st, true;
    }

    /**
     * `Commit`: written, synced, and only then visible. An error before the write changes
     * nothing; an error after it leaves a record that a restart may find. The log beside
     * it stays where it was.
     */
    method Commit(group: bytes, off: nat, time: int64) returns (err: Option<Error>, ghost taken: seq<Step>)
      requires Valid() && log.Valid() && |seg.recs| + 1 < TWO64
      modifies this, fs, seg, log`origin, log`steps, log`st
      ensures Blames(old(fs.refused), fs.refused, err)
      ensures Valid() && log.Valid() && log.st == old(log.st).(disk := log.st.disk)
      ensures Goes(old(fs.past), fs.past, old(st), taken, st)
      ensures st.asked == old(st.asked) || st.asked == old(st.asked) + [Ask(group, off, time)]
      ensures off > |log.st.hist| <==> err == Some(NotFound)
      ensures off <= |log.st.hist| && old(seg.sealed) ==> err == Some(Sealed)
      ensures off <= |log.st.hist| && !old(seg.sealed) && !Framable(CommitEvent(Ask(group, off, time))) ==>
                err == Some(Refused(Reason(CommitEvent(Ask(group, off, time)))))
      ensures err.None? ==> taken == [Write(Ask(group, off, time)), SyncReturns] && at == old(at)[group := off]
      ensures err.None? ==>
                |seg.recs| == |old(seg.recs)| + 1 && seg.recs[..|old(seg.recs)|] == old(seg.recs)
                && IsCommit(seg.recs[|old(seg.recs)|].event, group, off, time)
      ensures off <= |log.st.hist| && !old(seg.sealed) && Framable(CommitEvent(Ask(group, off, time))) ==>
                err.None? || err == Some(Io(Failed))
      ensures err.Some? ==> at == old(at)
      ensures err.Some? && err.value != Io(Failed) ==> taken == [] && intact == old(intact)
      ensures err.None? ==> intact == old(intact)
    {
      hide Linked, LastPerGroup, Framable, CommitEvent, Goes, Log.Consistent, Segment.Valid, AllAsked;
      Apart();
      SameRecs();
      GoesNot(fs.past, st);
      if off > log.active.next {
        return Some(NotFound), [];
      }
      ghost var before := st;
      err, taken := WriteOne(group, off, time);
      AllAskedStill(at, before.asked, st.asked);
      if err.Some? {
        intact := intact && err != Some(Io(Failed));
        return;
      }
      ghost var mid, past, more := st, fs.past, [];
      var ok;
      ok, more := SyncOne();
      GoesThen(old(fs.past), past, fs.past, before, taken, mid, more, st);
      taken := taken + more;
      if !ok {
        intact := false;
        return Some(Io(Failed)), taken;
      }
      OneMoreCommit(before.recs, Ask(group, off, time));
      CommitsAreThat(Ask(group, off, time));
      SameRecs();
      at := at[group := off];
    }

    lemma SameRecs()
      requires Linked()
      ensures st.recs == seg.recs
    {
    }

    lemma Apart()
      requires Linked() && log.Valid()
      ensures fs == log.fs && fs.past != [] && log.active.next == |log.st.hist| < TWO64
      ensures seg != log.active
    {
      hide Inv, Shows, Segment.Valid, Log.Consistent;
      TailOf(log);
      Seen(log);
      HandlesApart(log, seg);
    }

    /** The write half of a commit. */
    method WriteOne(group: bytes, off: nat, time: int64) returns (err: Option<Error>, ghost taken: seq<Step>)
      requires Valid() && log.Consistent() && off < TWO64 && |seg.recs| + 1 < TWO64
      modifies this`st, fs, seg, log`origin, log`steps, log`st
      ensures Blames(old(fs.refused), fs.refused, err)
      ensures Linked() && log.Consistent() && log.st == old(log.st).(disk := log.st.disk)
      ensures Goes(old(fs.past), fs.past, old(st), taken, st)
      ensures var a := Ask(group, off, time);
              && (err == Some(Sealed) <==> old(seg.sealed))
              && (!old(seg.sealed) && !Framable(CommitEvent(a)) ==> err == Some(Refused(Reason(CommitEvent(a)))))
              && (!old(seg.sealed) && Framable(CommitEvent(a)) ==> err == None || err == Some(Io(Failed)))
              && (st.asked == old(st.asked) || st.asked == old(st.asked) + [a])
              && (err.None? ==> st.asked != old(st.asked))
              && (err.Some? && err != Some(Io(Failed)) ==> taken == [] && st == old(st))
              && (err == None ==> taken == [Write(a)] && st.recs == old(st.recs) + [Rec(|old(st.recs)|, CommitEvent(a))])
              && st.pending == err.None?
    {
      hide EncodeAll, Encode, Framable, Shows, Segment.Settled, Recorded, Held, Directory, Ascending, Goes, Keeps, Log.Consistent;
      ghost var a := Ask(group, off, time);
      var e := Event(group, time, COMMIT_SCHEMA, Little(off, COMMIT_PAYLOAD_LEN));
      ghost var d, past := fs.View(), fs.past;
      RecordedAscends(st.recs, st.from, st.asked);
      seg.NextIs();
      Seen(log);
      GoesNot(past, st);
      taken := [];
      ghost var stored;
      err, stored := AppendOne(e);
      if err.Some? && err != Some(Io(Failed)) {
        return;
      }
      ghost var step := if err.None? then Write(a) else ShortWrite(a, stored);
      StepKeeps(st, step);
      assert err.None? ==> Encode(|st.recs|, e)[..stored] == Encode(|st.recs|, e);
      AppendShows(d, st, Encode(|st.recs|, e)[..stored], Apply(st, step));
      GoesOne(past, d, fs.View(), st, step);
      taken, st := [step], Apply(st, step);
    }

    /** `seg.Append` on the commits file. */
    method AppendOne(e: Event) returns (err: Option<Error>, ghost stored: nat)
      requires Linked() && log.Consistent() && seg.next + 1 < TWO64
      modifies fs, seg, log`origin, log`steps, log`st
      ensures Blames(old(fs.refused), fs.refused, err)
      ensures seg.Valid() && log.Consistent() && log.st == old(log.st).(disk := log.st.disk)
      ensures Keeps(old(fs.View()), fs.View(), TheCommits)
      ensures old(seg.sealed) <==> err == Some(Sealed)
      ensures !old(seg.sealed) && !Framable(e) <==> err == Some(Refused(Reason(e)))
      ensures err.None? || err == Some(Io(Failed)) || err == Some(Sealed) || err == Some(Refused(Reason(e)))
      ensures var code := Encode(old(seg.next), e);
              if err.None? || err == Some(Io(Failed)) then
                && fs.past == old(fs.past) + [fs.View()] && stored <= |code|
                && fs.View() == Appended(old(fs.View()), seg.node, code[..stored])
                && (err.None? <==> stored == |code|) && seg.sealed == err.Some?
                && seg.recs == old(seg.recs) + if err.None? then [Rec(old(seg.next), e)] else []
              else
                fs.past == old(fs.past) && fs.View() == old(fs.View()) && seg.recs == old(seg.recs) && seg.sealed == old(seg.sealed)
    {
      hide EncodeAll, Encode, Framable, Segment.Settled, Inv, Directory, Ascending, TracksFrom, Log.Handle, Keeps;
      ghost var before, d, next := log.st, fs.View(), seg.next;
      Seen(log);
      HandlesApart(log, seg);
      err, stored := seg.Append(e);
      if err.None? || err == Some(Io(Failed)) {
        CommitsAreApart(d, st, Encode(next, e)[..stored], 0);
        log.NotedBy(TheCommits, before);
      } else {
        SameKeeps(d, TheCommits);
      }
    }

    /** The sync half. */
    method SyncOne() returns (ok: bool, ghost taken: seq<Step>)
      requires Linked() && log.Consistent() && st.pending
      modifies this`st, fs, log`origin, log`steps, log`st
      ensures Blames(old(fs.refused), fs.refused, Refusing(ok))
      ensures Linked() && log.Consistent() && log.st == old(log.st).(disk := log.st.disk)
      ensures Goes(old(fs.past), fs.past, old(st), taken, st)
      ensures !st.pending && st.recs == old(st.recs) && st.asked == old(st.asked) && taken == [if ok then SyncReturns else SyncFails]
    {
      hide EncodeAll, Recorded, Held, Ascending, Segment.Settled, Directory, TracksFrom, Log.Handle, Log.Cached, Keeps, Goes,
           Durability.Inv;
      ghost var before, d, past := log.st, fs.View(), fs.past;
      Seen(log);
      RecordedAscends(st.recs, st.from, st.asked);
      PendingIsLast(st);
      CommitsAreApart(d, st, [], 0);
      ok := seg.Sync();
      log.NotedBy(TheCommits, before);
      ghost var step := if ok then SyncReturns else SyncFails;
      StepKeeps(st, step);
      GoesOne(past, d, fs.View(), st, step);
      taken, st := [step], Apply(st, step);
    }
  }

  /** The commits file is never full: `AppendAll` takes one record whatever the limit. */
  const COMMITS_MAX_BYTES: nat := 0x4000_0000_0000_0000

  /**
   * `openCommits`: the file is scanned and its tail cut off, or created and its directory
   * entry synced, and then replayed. After an error the state is whatever the operations
   * that did happen made it, and the log beside it stays where it was.
   */
  method OpenCommits(log: Log, ghost before: State) returns (r: Result<Commits, Error>, ghost after: State, ghost taken: seq<Step>)
    requires log.Valid() && Shows(log.st.disk, before) && Inv(before)
    modifies log.fs, log`origin, log`steps, log`st
    ensures Blames(old(log.fs.refused), log.fs.refused, ErrorOf(r))
    ensures Goes(old(log.fs.past), log.fs.past, before, taken, after)
    ensures log.Valid() && log.st.segs == old(log.st.segs) && log.st.hist == old(log.st.hist) && log.st.acked == old(log.st.acked)
    ensures Shows(log.st.disk, after)
    ensures after.asked == before.asked && after.returned == before.returned && after.recs == before.recs
    ensures r.Err? ==> r.error.Io?
    ensures r.Ok? ==>
              && fresh(r.value) && fresh(r.value.seg) && r.value.Valid() && r.value.log == log && r.value.st == after && r.value.intact
              && r.value.at == Recovered(before) && (!before.exists_ ==> after.named)
  {
    hide Goes, Shows, Inv, LastPerGroup, Scan, Segment.Valid, Log.Consistent;
    var opts := Options(COMMITS_MAX_BYTES, log.cfg.segment.interval);
    var seg;
    seg, after, taken := OpenExisting(log, opts, before);
    if seg == Err(Io(NotExists)) {
      ghost var looked := log.fs.past;
      ghost var first := taken;
      seg, after, taken := CreateFirst(log, opts, before);
      GoesThen(old(log.fs.past), looked, log.fs.past, before, first, before, taken, after);
      taken := first + taken;
    }
    GoesKeeps(old(log.fs.past), log.fs.past, before, taken, after);
    if seg.Err? {
      return Err(seg.error), after, taken;
    }
    RecoveredIs(before);
    AllCommits(after);
    var at := Replay(seg.value);
    if at.Err? {
      assert false;
    }
    Seen(log);
    var c := new Commits(log, seg.value, at.value, after);
    r := Ok(c);
  }

  /** `q` goes on from `p` by these steps of the commits file, and by nothing else. */
  ghost predicate Goes(p: seq<Disk>, q: seq<Disk>, s: State, taken: seq<Step>, t: State) {
    && Framed(p, q, TheCommits)
    && Traced(q[|p|..], s, taken) && Legal(s, taken) && t == Run(s, taken)
  }

  lemma GoesNot(p: seq<Disk>, s: State)
    requires p != []
    ensures Goes(p, p, s, [], s)
  {
    FramedHere(p, TheCommits);
    assert p[|p|..] == [] && Legal(s, []) && Run(s, []) == s;
  }

  lemma GoesThen(p: seq<Disk>, q: seq<Disk>, r: seq<Disk>, s: State, first: seq<Step>, t: State, then_: seq<Step>, u: State)
    requires Goes(p, q, s, first, t) && Goes(q, r, t, then_, u)
    ensures Goes(p, r, s, first + then_, u)
  {
    hide Traced, Legal, Run, Minds;
    FramedThen(p, q, r, TheCommits);
    TracedThen(q[|p|..], r[|q|..], s, first, then_);
    assert r[|p|..] == q[|p|..] + r[|q|..];
  }

  lemma GoesKeeps(p: seq<Disk>, q: seq<Disk>, s: State, taken: seq<Step>, t: State)
    requires Goes(p, q, s, taken, t) && Inv(s)
    ensures Inv(t) && Remembers(s, t)
  {
    hide Traced, Legal, Run, Inv, Minds;
    RunKeeps(s, taken);
  }

  lemma Seen(log: Log)
    requires log.Consistent()
    ensures log.fs.View() == log.st.disk && log.fs.past != [] && log.fs.past[|log.fs.past| - 1] == log.st.disk && log.fs.Valid()
    ensures Sound(log.st.disk)
  {
    hide Tracks, Durability.Inv, Log.Handle, Log.Cached, Directory;
    log.Knows();
    SoundNow(log.st);
    TracksLegal(log.fs.past, log.steps, log.st);
  }

  /** One operation on the commits file. */
  lemma GoesOne(p: seq<Disk>, d: Disk, e: Disk, s: State, step: Step)
    requires p != [] && p[|p| - 1] == d && Keeps(d, e, TheCommits) && Enabled(s, step) && Shows(e, Apply(s, step))
    ensures Goes(p, p + [e], s, [step], Apply(s, step))
  {
    hide Keeps, Enabled, Apply, Shows, Traced, Legal, Run;
    FramedHere(p, TheCommits);
    FramedStep(p, p, e, TheCommits);
    TracedOne(e, s, step);
    assert (p + [e])[|p|..] == [e];
  }

  /** `openNamed` on the commits file. */
  method OpenExisting(log: Log, opts: Options, ghost before: State)
    returns (r: Result<Segment, Error>, ghost after: State, ghost taken: seq<Step>)
    requires log.Consistent() && Shows(log.st.disk, before) && Inv(before)
    modifies log.fs, log`origin, log`steps, log`st
    ensures before.exists_ ==> Blames(old(log.fs.refused), log.fs.refused, ErrorOf(r))
    ensures old(log.fs.refused) <= log.fs.refused
    ensures Goes(old(log.fs.past), log.fs.past, before, taken, after)
    ensures log.Consistent() && log.st == old(log.st).(disk := log.st.disk) && Shows(log.st.disk, after)
    ensures r.Err? ==> r.error.Io? && after == before && log.st == old(log.st)
    ensures r == Err(Io(NotExists)) <==> !before.exists_
    ensures r.Ok? ==>
              && fresh(r.value) && Attached(log.fs, r.value, after)
              && after == before.(file := after.file, tail := [], up := true, sealed := false, pending := false)
  {
    hide EncodeAll, Scan, Recorded, Held, Ascending, Directory, Segment.Settled, TracksFrom, Durability.Inv, Log.Handle,
         Log.Cached, Keeps, Goes;
    ghost var s, d, past := log.st, log.st.disk, log.fs.past;
    Seen(log);
    RecordedAscends(before.recs, before.from, before.asked);
    ScanExact(0, before.recs, before.tail);
    CommitsAreApart(d, before, [], |EncodeAll(before.recs)|);
    Looks(past, d, before);
    after, taken := before, [Idle];
    var f;
    r, f := Segment.OpenNamed(log.fs, COMMITS_FILE, 0, opts, true);
    if |log.fs.past| == |past| + 2 {
      assert log.fs.past == past + [d] + [log.fs.View()];
      log.NotedTwiceBy(TheCommits, s);
    } else {
      assert log.fs.past == past + [d];
      log.NotedBy(TheCommits, s);
    }
    if r.Err? {
      if |log.fs.past| == |past| + 2 {
        taken := [Idle] + [Idle];
      }
      return;
    }
    Reopens(past, d, log.fs.View(), before, f.discarded > 0);
    after := Apply(before, Reopen);
    taken := if f.discarded > 0 then [Idle] + [Reopen] else [Reopen];
  }

  /** Opening the file changes nothing, and nor does failing to cut its tail off. */
  lemma Looks(p: seq<Disk>, d: Disk, s: State)
    requires p != [] && p[|p| - 1] == d && Shows(d, s) && Keeps(d, d, TheCommits)
    ensures Goes(p, p + [d], s, [Idle], s) && Goes(p, p + [d] + [d], s, [Idle] + [Idle], s)
  {
    hide Goes, Keeps, Shows;
    GoesOne(p, d, d, s, Idle);
    GoesOne(p + [d], d, d, s, Idle);
    GoesThen(p, p + [d], p + [d] + [d], s, [Idle], s, [Idle], s);
  }

  lemma Reopens(p: seq<Disk>, d: Disk, e: Disk, s: State, torn: bool)
    requires p != [] && p[|p| - 1] == d && Shows(d, s) && Inv(s) && Enabled(s, Reopen) && Keeps(d, d, TheCommits)
    requires |EncodeAll(s.recs)| <= |s.file.data|
    requires if torn then e == Truncated(d, d.live[COMMITS_FILE], |EncodeAll(s.recs)|) && Keeps(d, e, TheCommits) else e == d && s.tail == []
    ensures Shows(e, Apply(s, Reopen)) && Inv(Apply(s, Reopen))
    ensures if torn then Goes(p, p + [d] + [e], s, [Idle] + [Reopen], Apply(s, Reopen)) else Goes(p, p + [e], s, [Reopen], Apply(s, Reopen))
  {
    hide Goes, Keeps, Shows, Inv, EncodeAll;
    ReopenKeeps(s);
    ReopenShows(d, s, !torn);
    if torn {
      GoesOne(p, d, d, s, Idle);
      GoesOne(p + [d], d, e, s, Reopen);
      GoesThen(p, p + [d], p + [d] + [e], s, [Idle], s, [Reopen], Apply(s, Reopen));
    } else {
      GoesOne(p, d, e, s, Reopen);
    }
  }

  /** Cutting the tail off is what the machine calls reopening, and so is finding none. */
  lemma ReopenShows(d: Disk, s: State, whole: bool)
    requires Shows(d, s) && Inv(s) && Enabled(s, Reopen) && (whole ==> s.tail == [])
    ensures |EncodeAll(s.recs)| <= |s.file.data|
    ensures Shows(Truncated(d, d.live[COMMITS_FILE], |EncodeAll(s.recs)|), Apply(s, Reopen))
    ensures whole ==> Shows(d, Apply(s, Reopen))
  {
    hide EncodeAll, Recorded, Held, Unframed;
    assert (EncodeAll(s.recs) + s.tail)[..|EncodeAll(s.recs)|] == EncodeAll(s.recs);
  }

  /** The first commit of all creates the file, and its directory entry is synced before it is used. */
  method CreateFirst(log: Log, opts: Options, ghost before: State)
    returns (r: Result<Segment, Error>, ghost after: State, ghost taken: seq<Step>)
    requires log.Consistent() && Shows(log.st.disk, before) && Inv(before) && !before.exists_
    modifies log.fs, log`origin, log`steps, log`st
    ensures Blames(old(log.fs.refused), log.fs.refused, ErrorOf(r))
    ensures Goes(old(log.fs.past), log.fs.past, before, taken, after)
    ensures log.Consistent() && Shows(log.st.disk, after)
    ensures log.st == old(log.st).(disk := log.st.disk, kept := log.st.kept)
    ensures after.asked == before.asked && after.returned == before.returned && after.recs == before.recs
    ensures r.Err? ==> r.error.Io?
    ensures r.Ok? ==> fresh(r.value) && Attached(log.fs, r.value, after) && after.named
  {
    hide EncodeAll, Recorded, Held, Ascending, Segment.Settled, Unframed, TracksFrom, Durability.Inv, Log.Handle, Log.Cached,
         Keeps, Goes, Directory;
    ghost var s, d, past := log.st, log.st.disk, log.fs.past;
    Seen(log);
    CommitsAreApart(d, before, [], 0);
    GoesOne(past, d, d, before, Idle);
    CreateShows(d, before);
    GoesOne(past, d, Created(d, COMMITS_FILE), before, Create);
    r := Segment.CreateNamed(log.fs, COMMITS_FILE, 0, opts);
    log.NotedBy(TheCommits, s);
    if r.Err? {
      after, taken := before, [Idle];
      return;
    }
    after := Apply(before, Create);
    ghost var step, named, created := Idle, after, log.fs.past;
    var ok;
    ok, step, named := NameIt(log, after);
    GoesThen(past, created, log.fs.past, before, [Create], after, [step], named);
    after, taken := named, [Create] + [step];
    if !ok {
      r := Err(Io(Failed));
    }
  }

  lemma CreateShows(d: Disk, s: State)
    requires Sound(d) && Shows(d, s) && !s.exists_
    ensures Shows(Created(d, COMMITS_FILE), Apply(s, Create))
  {
  }

  /** The directory sync after the file is created. */
  method NameIt(log: Log, ghost s: State) returns (ok: bool, ghost step: Step, ghost t: State)
    requires log.Consistent() && Shows(log.st.disk, s) && s.exists_ && s.up
    modifies log.fs, log`steps, log`st
    ensures Blames(old(log.fs.refused), log.fs.refused, Refusing(ok))
    ensures log.Consistent() && log.st == if ok then Durability.AfterSyncDirectory(old(log.st)) else old(log.st)
    ensures Goes(old(log.fs.past), log.fs.past, s, [step], t) && Shows(log.st.disk, t)
    ensures t == if ok then s.(named := true) else s.(up := false, pending := false)
  {
    hide Log.Consistent, Goes, Shows;
    Seen(log);
    ghost var d, past := log.st.disk, log.fs.past;
    ok := log.SyncBeside();
    Seen(log);
    step := if ok then SyncDirectory else Kill;
    t := Apply(s, step);
    SyncedShows(past, d, s, step);
    assert log.fs.past == past + [log.st.disk];
  }

  lemma SyncedShows(p: seq<Disk>, d: Disk, s: State, step: Step)
    requires p != [] && p[|p| - 1] == d && Sound(d) && Shows(d, s) && s.exists_ && s.up && (step == SyncDirectory || step == Kill)
    ensures var e := if step == SyncDirectory then DirSynced(d) else d;
            Goes(p, p + [e], s, [step], Apply(s, step)) && Shows(e, Apply(s, step))
  {
    hide Keeps, Traced, Legal, Run;
    var e := if step == SyncDirectory then DirSynced(d) else d;
    SameKeeps(d, TheCommits);
    FramedHere(p, TheCommits);
    FramedStep(p, p, e, TheCommits);
    TracedOne(e, s, step);
    assert (p + [e])[|p|..] == [e];
  }

  lemma AllCommits(s: State)
    requires Inv(s)
    ensures Replayable(s.recs)
  {
    hide DecodeCommit, EncodeAll, Held, Framable, Unframed;
    forall i | 0 <= i < |s.recs|
      ensures s.recs[i].offset == i && s.recs[i].event.schema == 1 && |s.recs[i].event.payload| == 8
    {
      DecodeCommitted(s.asked[s.from[i]]);
      OnlyThatDecodes(s.recs[i].event);
    }
  }

  lemma {:induction false} TracedThen(p: seq<Disk>, q: seq<Disk>, s: State, first: seq<Step>, then_: seq<Step>)
    requires Traced(p, s, first) && Legal(s, first) && Traced(q, Run(s, first), then_) && Legal(Run(s, first), then_)
    ensures Traced(p + q, s, first + then_) && Legal(s, first + then_)
    ensures Run(s, first + then_) == Run(Run(s, first), then_)
    decreases |first|
  {
    hide Enabled, Apply, Shows;
    if first == [] {
      assert p + q == q && first + then_ == then_;
    } else {
      assert (p + q)[1..] == p[1..] + q && (first + then_)[1..] == first[1..] + then_;
      TracedThen(p[1..], q, Apply(s, first[0]), first[1..], then_);
    }
  }

  ghost predicate Attached(fs: FS, seg: Segment, s: State)
    reads fs, seg
  {
    && seg.fs == fs && seg.Valid() && seg.base == 0 && !seg.sealed
    && COMMITS_FILE in fs.live && fs.live[COMMITS_FILE] == seg.node
    && s.up && !s.pending && !s.sealed && s.recs == seg.recs
  }

  lemma AppendShows(d: Disk, s: State, p: bytes, t: State)
    requires Shows(d, s) && s.exists_ && t == s.(file := t.file, recs := t.recs, tail := t.tail, sealed := t.sealed,
                                                 asked := t.asked, from := t.from, pending := t.pending)
    requires t.file == s.file.(data := s.file.data + p)
    ensures Shows(Appended(d, d.live[COMMITS_FILE], p), t)
  {
  }

  lemma PendingIsLast(s: State)
    requires Inv(s) && s.pending
    ensures s.from != [] && s.asked != []
  {
    hide Framable, EncodeAll, Unframed;
  }

  lemma TracedOne(d: Disk, s: State, step: Step)
    requires Enabled(s, step) && Shows(d, Apply(s, step))
    ensures Traced([d], s, [step]) && Legal(s, [step]) && Run(s, [step]) == Apply(s, step)
  {
    hide Enabled, Apply, Shows;
    assert [step][1..] == [] && [d][1..] == [];
    assert Legal(s, [step]);
  }

  lemma OneMoreCommit(rs: seq<Rec>, a: Ask)
    requires a.off < TWO64
    ensures LastPerGroup(rs + [Rec(|rs|, CommitEvent(a))]) == LastPerGroup(rs)[a.group := a.off]
  {
    hide DecodeCommit;
    DecodeCommitted(a);
    assert (rs + [Rec(|rs|, CommitEvent(a))])[..|rs|] == rs;
  }

  /**
   * `Group.Reader`: a cursor where the group resumes, or at the first offset for a group
   * that never committed. A commit is durable when it returns and the records below it
   * need not be, so after a power cut the committed offset can lie beyond the log's tail;
   * then, and only then, there is no cursor to give.
   */
  method GroupReader(c: Commits, group: bytes) returns (r: Result<Reader, Error>)
    requires c.log.Valid() && c.Valid()
    ensures var from := if group in c.at then c.at[group] else 0;
            && (r.Err? <==> from > |c.log.st.hist|)
            && (r.Err? ==> r.error == NotFound)
            && (r.Ok? ==> fresh(r.value) && r.value.Valid() && r.value.log == c.log && r.value.next == from)
  {
    hide Log.Valid, Commits.Linked;
    r := Reader.OpenAt(c.log, if group in c.at then c.at[group] else 0);
  }
}
