/**
 * How a program is tied to the machine: the states its filesystem has been in, one per
 * operation, are the disks of a legal run of the machine, in order. Whatever holds of
 * every run then holds of the program at every instant, including mid-call.
 */
module Tracking {
  import opened Bytes
  import opened Events
  import opened Records
  import opened Recovery
  import opened Names
  import opened Disks
  import opened Owners
  import opened Segments
  import opened Compaction
  import opened Durability
  import opened Preservation
  import opened Runs

  ghost predicate Tracks(past: seq<Disk>, steps: seq<Step>, s: State)
    decreases |steps|
  {
    if steps == [] then past == [EMPTY] && s == INIT
    else
      var n := |steps| - 1;
      && |past| == |steps| + 1 && past[n + 1] == s.disk
      && Legal(INIT, steps) && s == Run(INIT, steps)
      && Legal(INIT, steps[..n]) && Tracks(past[..n + 1], steps[..n], Run(INIT, steps[..n]))
  }

  lemma {:induction false} RunOneMore(s: State, steps: seq<Step>, step: Step)
    requires Legal(s, steps) && Enabled(Run(s, steps), step)
    ensures Legal(s, steps + [step]) && Run(s, steps + [step]) == Apply(Run(s, steps), step)
    decreases |steps|
  {
    hide Enabled, Apply;
    var more := steps + [step];
    if steps == [] {
      assert more[1..] == [];
      assert Legal(s, more);
    } else {
      assert more[1..] == steps[1..] + [step];
      RunOneMore(Apply(s, steps[0]), steps[1..], step);
    }
  }

  lemma {:induction false} RunInTwo(s: State, a: seq<Step>, b: seq<Step>)
    requires Legal(s, a + b)
    ensures Legal(s, a) && Legal(Run(s, a), b) && Run(s, a + b) == Run(Run(s, a), b)
    decreases |a|
  {
    hide Enabled, Apply;
    if a == [] {
      assert a + b == b;
    } else {
      assert (a + b)[0] == a[0] && (a + b)[1..] == a[1..] + b;
      RunInTwo(Apply(s, a[0]), a[1..], b);
    }
  }

  lemma TracksLegal(past: seq<Disk>, steps: seq<Step>, s: State)
    requires Tracks(past, steps, s)
    ensures Legal(INIT, steps) && s == Run(INIT, steps) && |past| == |steps| + 1 && past[|steps|] == s.disk
  {
  }

  /** One operation, one step. */
  lemma TracksStep(past: seq<Disk>, steps: seq<Step>, s: State, step: Step, d: Disk)
    requires Tracks(past, steps, s) && Enabled(s, step) && Apply(s, step).disk == d
    ensures Tracks(past + [d], steps + [step], Apply(s, step))
    ensures Inv(Apply(s, step))
  {
    hide Enabled, Apply, Inv;
    TracksLegal(past, steps, s);
    RunOneMore(INIT, steps, step);
    assert (past + [d])[..|steps| + 1] == past && (steps + [step])[..|steps|] == steps;
    ReachableKeeps(steps + [step]);
  }

  lemma TracksInvariant(past: seq<Disk>, steps: seq<Step>, s: State)
    requires Tracks(past, steps, s)
    ensures Inv(s)
  {
    hide Inv;
    TracksLegal(past, steps, s);
    ReachableKeeps(steps);
  }

  /** Each state the disk has been in is the disk of a reachable state, so a cut there loses nothing acknowledged. */
  lemma {:induction false} EveryMomentIsReachable(past: seq<Disk>, steps: seq<Step>, s: State, i: nat)
    requires Tracks(past, steps, s) && i < |past|
    ensures i <= |steps| && Legal(INIT, steps[..i]) && past[i] == Run(INIT, steps[..i]).disk
    decreases |steps|
  {
    hide Enabled, Apply;
    TracksLegal(past, steps, s);
    if i == |steps| {
      assert steps[..i] == steps;
    } else {
      var n := |steps| - 1;
      EveryMomentIsReachable(past[..n + 1], steps[..n], Run(INIT, steps[..n]), i);
      assert steps[..n][..i] == steps[..i];
    }
  }

  /**
   * The power may go between any two operations the program performed, inside a call or
   * between calls, in any shape: what is then on the disk has every record that was
   * acknowledged by that moment, or a later one for its key in the same segment.
   */
  lemma CutAtAnyMoment(past: seq<Disk>, steps: seq<Step>, s: State, i: nat, shape: Shape, off: nat) returns (base: nat)
    requires Tracks(past, steps, s) && i < |past| && i <= |steps| && Legal(INIT, steps[..i])
    requires off < Run(INIT, steps[..i]).acked
    ensures var then_ := Run(INIT, steps[..i]);
            var d := PowerCut(past[i], shape);
            && off < |then_.hist| && base <= off && SegmentName(base) in d.live
            && (Present(d, base, off, then_.hist[off]) || SupersededIn(d, base, off, then_.hist[off]))
  {
    hide Inv, Enabled, Apply, Present, SupersededIn, Tracks, PowerCut, SegmentName;
    EveryMomentIsReachable(past, steps, s, i);
    ReachableKeeps(steps[..i]);
    var then_ := Run(INIT, steps[..i]);
    OneCut(then_, shape);
    base := AcknowledgedSurvives(steps[..i], [Cut(shape)], off);
  }

  lemma OneCut(s: State, shape: Shape)
    requires Inv(s)
    ensures Legal(s, [Cut(shape)]) && Run(s, [Cut(shape)]) == CutState(s, shape)
    ensures CutState(s, shape).disk == PowerCut(s.disk, shape)
  {
    hide Inv, PowerCut, CutState, SegmentName, EncodeAll;
    Basics(s);
    CutDisk(s, shape);
    CutIsARun(s, shape);
  }

  // ---- What the log does to the rest of the directory ----

  /** The active file is reached through its segment's name and no other. */
  lemma ActiveIsPrivate(s: State)
    requires Inv(s) && s.segs != [] && s.named
    ensures HasActiveFile(s) && Private(s.disk, ActiveNode(s), TheLog)
  {
    hide Tiled, SealedStored, ParseSegmentName, SegmentName, EncodeAll, Temporary, Unframed, HasBase;
    ActiveNameIsASegments(s);
    var name := SegmentName(Active(s).base);
    assert Belongs(TheLog, name) && name in s.disk.durable;
  }

  lemma ActiveNameIsASegments(s: State)
    requires Inv(s) && s.segs != []
    ensures ParseSegmentName(SegmentName(Active(s).base)).Some?
  {
    hide Stored, Tiled, SegmentName, ParseSegmentName;
    SegmentNamesAreDistinct(s);
  }

  /** Whatever the log does, it does to its own files or it syncs the directory. */
  lemma StepMinds(s: State, step: Step)
    requires Inv(s) && Enabled(s, step) && !step.Other? && !step.Cut?
    ensures Minds(s.disk, Apply(s, step).disk, TheLog)
  {
    hide Inv, Keeps, Private, SegmentName, EncodeAll, Stamp, Rescanned, Directory, Compacted, Belongs;
    Basics(s);
    match step
    case Write(events) =>
      ActiveIsPrivate(s);
      var n := ActiveNode(s);
      BytesKeep(s.disk, n, s.disk.inodes[n].(data := s.disk.inodes[n].data + EncodeAll(Stamp(|s.hist|, events))), TheLog);
    case ShortWrite(events, stored) =>
      ActiveIsPrivate(s);
      var n, p := ActiveNode(s), EncodeAll(Stamp(|s.hist|, events))[..stored];
      RescanDisk(s.(disk := Appended(s.disk, n, p)));
      BytesKeep(s.disk, n, s.disk.inodes[n].(data := s.disk.inodes[n].data + p), TheLog);
    case SyncActive =>
      ActiveIsPrivate(s);
      var n := ActiveNode(s);
      BytesKeep(s.disk, n, s.disk.inodes[n].(durable := s.disk.inodes[n].data), TheLog);
    case CreateSegment =>
      SegmentNameIsTheLogs(|s.hist|, s);
      CreatedKeeps(s.disk, SegmentName(|s.hist|), TheLog);
    case SyncDirectory =>
    case Swap(i, tmp) =>
      SegmentNameIsTheLogs(s.segs[i].base, s);
      TemporaryIsTheLogs(tmp);
      RenamedKeeps(s.disk, tmp, SegmentName(s.segs[i].base), TheLog);
    case Kill => SameKeeps(s.disk, TheLog);
    case Reopen =>
      ActiveIsPrivate(s);
      var n := ActiveNode(s);
      BytesKeep(s.disk, n, s.disk.inodes[n].(data := s.disk.inodes[n].data[..|EncodeAll(Active(s).recs)|]), TheLog);
  }

  lemma SegmentNameIsTheLogs(base: nat, s: State)
    requires Inv(s) && (base == |s.hist| || exists i :: 0 <= i < |s.segs| && s.segs[i].base == base)
    ensures Belongs(TheLog, SegmentName(base))
  {
    hide Stored, SegmentName, ParseSegmentName, SealedTiled, ActiveTiled, AllFramable, Temporary;
    BasesFit(s);
    ParseSegmentNameOfName(base);
  }

  lemma TemporaryIsTheLogs(tmp: string)
    requires Temporary(tmp)
    ensures Belongs(TheLog, tmp)
  {
  }

  /** What leaves everything but another's files alone leaves the segments alone. */
  lemma KeepsSegments(d: Disk, e: Disk, o: Owner)
    requires Keeps(d, e, o) && o != TheLog && Sound(d)
    ensures SegmentsUntouched(d, e)
  {
    hide Belongs, ParseSegmentName;
    forall name | ParseSegmentName(name).Some? ensures SameFile(d, e, name) {
      OneOwner(o, name);
    }
  }

  /** `Tracks`, and since `origin` every operation was the log's own. */
  ghost predicate TracksFrom(origin: seq<Step>, past: seq<Disk>, steps: seq<Step>, s: State) {
    && Tracks(past, steps, s) && |past| == |steps| + 1 && origin <= steps
    && forall k :: |origin| <= k < |steps| ==> Minds(past[k], past[k + 1], TheLog)
  }

  lemma TracksFromInvariant(origin: seq<Step>, past: seq<Disk>, steps: seq<Step>, s: State)
    requires TracksFrom(origin, past, steps, s)
    ensures Inv(s)
  {
    hide Inv, Tracks;
    TracksInvariant(past, steps, s);
  }

  lemma TracksHere(past: seq<Disk>, steps: seq<Step>, s: State)
    requires Tracks(past, steps, s)
    ensures TracksFrom(steps, past, steps, s)
  {
    TracksLegal(past, steps, s);
  }

  lemma TracksFromStep(origin: seq<Step>, past: seq<Disk>, steps: seq<Step>, s: State, step: Step, d: Disk)
    requires TracksFrom(origin, past, steps, s) && Enabled(s, step) && Apply(s, step).disk == d
    requires !step.Cut? && (step.Other? ==> Minds(s.disk, d, TheLog))
    ensures TracksFrom(origin, past + [d], steps + [step], Apply(s, step))
    ensures Inv(Apply(s, step))
  {
    hide Enabled, Apply, Inv, Tracks, Minds;
    TracksLegal(past, steps, s);
    TracksInvariant(past, steps, s);
    if !step.Other? {
      StepMinds(s, step);
    }
    TracksStep(past, steps, s, step, d);
    var more := past + [d];
    forall k | |origin| <= k < |steps| + 1 ensures Minds(more[k], more[k + 1], TheLog) {
      assert more[k] == past[k] && (k < |steps| ==> more[k + 1] == past[k + 1]);
    }
  }

  /** The disks a run went through are its own, so a longer run went through them too. */
  lemma {:induction false} PastIsDetermined(past: seq<Disk>, steps: seq<Step>, s: State, longer: seq<Disk>, more: seq<Step>, t: State)
    requires Tracks(past, steps, s) && Tracks(longer, more, t) && steps <= more
    ensures past <= longer
  {
    hide Enabled, Apply;
    TracksLegal(past, steps, s);
    TracksLegal(longer, more, t);
    forall i | 0 <= i < |past| ensures past[i] == longer[i] {
      EveryMomentIsReachable(past, steps, s, i);
      EveryMomentIsReachable(longer, more, t, i);
      assert steps[..i] == more[..i];
    }
  }

  /** Seen from the disks: everything since is a frame of the log's own operations. */
  lemma TracksFramed(past: seq<Disk>, steps: seq<Step>, s: State, longer: seq<Disk>, more: seq<Step>, t: State)
    requires Tracks(past, steps, s) && TracksFrom(steps, longer, more, t)
    ensures Framed(past, longer, TheLog)
  {
    hide Tracks, Minds;
    TracksLegal(past, steps, s);
    PastIsDetermined(past, steps, s, longer, more, t);
    forall j | |past| <= j < |longer| ensures Minds(longer[j - 1], longer[j], TheLog) {
      assert Minds(longer[j - 1], longer[(j - 1) + 1], TheLog);
    }
  }

  /** And seen from further back. */
  lemma TracksFurther(origin: seq<Step>, past: seq<Disk>, steps: seq<Step>, s: State, longer: seq<Disk>, more: seq<Step>, t: State)
    requires TracksFrom(origin, past, steps, s) && TracksFrom(steps, longer, more, t)
    ensures TracksFrom(origin, longer, more, t)
  {
    hide Tracks, Minds;
    PastIsDetermined(past, steps, s, longer, more, t);
    forall k | |origin| <= k < |more| ensures Minds(longer[k], longer[k + 1], TheLog) {
      if k < |steps| {
        assert longer[k] == past[k] && longer[k + 1] == past[k + 1];
      }
    }
  }

  // ---- When a step may be taken, and what it does ----

  /** Somebody else's operation on a file of theirs. */
  lemma TracksBeside(past: seq<Disk>, steps: seq<Step>, s: State, d: Disk, o: Owner)
    requires Tracks(past, steps, s) && Keeps(s.disk, d, o) && o != TheLog && Sound(d)
    ensures Tracks(past + [d], steps + [Other(d)], s.(disk := d)) && Inv(s.(disk := d)) && SegmentsUntouched(s.disk, d)
  {
    hide Inv, Enabled, Apply, SegmentsUntouched, Directory, Tracks, Keeps;
    TracksInvariant(past, steps, s);
    Basics(s);
    KeepsSegments(s.disk, d, o);
    MayTouchOthers(s, d);
    TracksStep(past, steps, s, Other(d), d);
  }

  lemma Basics(s: State)
    requires Inv(s)
    ensures Sound(s.disk) && |s.kept| == |s.segs|
    ensures s.segs != [] ==> HasActiveFile(s) && Active(s).base <= |s.hist|
    ensures s.segs != [] ==> |EncodeAll(Active(s).recs)| <= |s.disk.inodes[ActiveNode(s)].data|
  {
    hide SealedTiled, SealedStored, Entries, SegmentName, AllFramable, EncodeAll;
  }

  lemma MayKill(s: State)
    requires s.up && Inv(s)
    ensures Enabled(s, Kill) && Apply(s, Kill) == s.(up := false)
  {
    hide Inv, SegmentName, EncodeAll, HasActiveFile;
    Basics(s);
  }

  lemma MaySync(s: State)
    requires s.up && s.named && s.segs != [] && Inv(s)
    ensures HasActiveFile(s) && Enabled(s, SyncActive) && Apply(s, SyncActive) == AfterSync(s)
  {
    hide Inv, SegmentName, EncodeAll;
    Basics(s);
  }

  lemma MayWrite(s: State, events: seq<Event>)
    requires s.up && s.named && s.segs != [] && Inv(s)
    requires events != [] && AllFramable(events) && |s.hist| + |events| < TWO64
    ensures HasActiveFile(s) && Enabled(s, Write(events)) && Apply(s, Write(events)) == AfterWrite(s, events)
  {
    hide Inv, SegmentName, EncodeAll, AllFramable;
    Basics(s);
  }

  lemma MayWriteShort(s: State, events: seq<Event>, stored: nat)
    requires s.up && s.named && s.segs != [] && Inv(s)
    requires events != [] && AllFramable(events) && |s.hist| + |events| < TWO64
    requires stored <= |EncodeAll(Stamp(|s.hist|, events))|
    ensures HasActiveFile(s) && Enabled(s, ShortWrite(events, stored))
    ensures var t := Apply(s, ShortWrite(events, stored));
            && t.disk == Appended(s.disk, ActiveNode(s), EncodeAll(Stamp(|s.hist|, events))[..stored])
            && !t.up
  {
    hide Inv, SegmentName, EncodeAll, AllFramable, Stamp;
    Basics(s);
    var disk := Appended(s.disk, ActiveNode(s), EncodeAll(Stamp(|s.hist|, events))[..stored]);
    RescanStops(s.(disk := disk));
  }

  lemma RescanStops(s: State)
    requires HasActiveFile(s) && Active(s).base <= |s.hist|
    ensures !Rescanned(s).up && Rescanned(s).disk == s.disk
  {
    hide EncodeAll, SegmentName, Scan;
    ScanReencodes(s.disk.inodes[ActiveNode(s)].data, Active(s).base);
  }

  lemma MayCreate(s: State)
    requires Inv(s)
    requires if s.segs == [] then !s.up else s.up && s.named && Active(s).recs != [] && s.synced == |Active(s).recs|
    ensures |s.kept| == |s.segs| && Enabled(s, CreateSegment) && Apply(s, CreateSegment) == AfterCreate(s)
    ensures SegmentName(|s.hist|) !in s.disk.live
  {
    hide Inv, SegmentName, EncodeAll;
    Basics(s);
    CreateEntries(s);
  }

  lemma MaySyncDirectory(s: State)
    requires s.up && s.segs != [] && Inv(s)
    ensures Enabled(s, SyncDirectory) && Apply(s, SyncDirectory) == AfterSyncDirectory(s)
  {
    hide Inv, SegmentName, EncodeAll;
    Basics(s);
  }

  lemma MaySwap(s: State, i: nat, tmp: string)
    requires s.up && s.named && i + 1 < |s.segs| && Inv(s) && Swappable(s, i, tmp)
    ensures Enabled(s, Swap(i, tmp)) && Apply(s, Swap(i, tmp)) == AfterSwap(s, i, tmp)
  {
    hide Inv, SegmentName, EncodeAll, Compacted;
    Basics(s);
  }

  lemma MayReopen(s: State)
    requires !s.up && s.named && s.segs != [] && Inv(s)
    ensures HasActiveFile(s) && |EncodeAll(Active(s).recs)| <= |s.disk.inodes[ActiveNode(s)].data|
    ensures Enabled(s, Reopen) && Apply(s, Reopen) == AfterReopen(s)
  {
    hide Inv, SegmentName, EncodeAll;
    Basics(s);
  }

  /** An operation that changed nothing, or nothing a segment is made of. */
  lemma MayTouchOthers(s: State, d: Disk)
    requires Inv(s) && Sound(d) && SegmentsUntouched(s.disk, d)
    ensures Enabled(s, Other(d)) && Apply(s, Other(d)) == s.(disk := d)
  {
    hide Inv, SegmentName, EncodeAll, HasActiveFile, SegmentsUntouched, Directory;
    Basics(s);
  }

  lemma MayIdle(s: State)
    requires Inv(s)
    ensures Enabled(s, Other(s.disk)) && Apply(s, Other(s.disk)) == s
  {
    hide Inv, SegmentName, ParseSegmentName, EncodeAll, HasActiveFile, Directory;
    Basics(s);
  }

  /** A failed operation that changed nothing ends the process, if there is one. */
  lemma MayStop(s: State) returns (step: Step)
    requires Inv(s)
    ensures Enabled(s, step) && Apply(s, step) == s.(up := false)
    ensures step == Kill || step == Other(s.disk)
  {
    hide Inv, Enabled, Apply;
    if s.up {
      MayKill(s);
      step := Kill;
    } else {
      MayIdle(s);
      step := Other(s.disk);
    }
  }

  /** The shortest run with something to lose: a first segment, its name made durable, one record, one sync. */
  lemma FirstAcknowledgement(e: Event)
    requires Framable(e)
    ensures var steps := [CreateSegment, SyncDirectory, Write([e]), SyncActive];
            Legal(INIT, steps) && Run(INIT, steps).hist == [e] && Run(INIT, steps).acked == 1
  {
    hide Inv, Enabled, Apply, SegmentName, EncodeAll, Framable, Stamp;
    InitHolds();
    var created := AfterCreate(INIT);
    MayCreate(INIT);
    var named := AfterSyncDirectory(created);
    StepKeeps(INIT, CreateSegment);
    MaySyncDirectory(created);
    StepKeeps(created, SyncDirectory);
    MayWrite(named, [e]);
    var written := AfterWrite(named, [e]);
    StepKeeps(named, Write([e]));
    MaySync(written);
    FourSteps(INIT, created, named, written, CreateSegment, SyncDirectory, Write([e]), SyncActive);
  }

  lemma FourSteps(a: State, b: State, c: State, d: State, p: Step, q: Step, r: Step, t: Step)
    requires Enabled(a, p) && Apply(a, p) == b && Enabled(b, q) && Apply(b, q) == c
    requires Enabled(c, r) && Apply(c, r) == d && Enabled(d, t)
    ensures Legal(a, [p, q, r, t]) && Run(a, [p, q, r, t]) == Apply(d, t)
  {
    hide Enabled, Apply;
    assert [p, q, r, t] == [p] + [q] + [r] + [t];
    assert [p][1..] == [] && Legal(b, []) && Run(b, []) == b;
    assert Legal(a, [p]) && Run(a, [p]) == b;
    RunOneMore(a, [p], q);
    RunOneMore(a, [p] + [q], r);
    RunOneMore(a, [p] + [q] + [r], t);
  }
}
