/**
 * What log/compact.go promises of its swap: a power cut at any moment leaves a sealed
 * segment exactly as it was or exactly compacted. The swap is visible before it is
 * durable, so the two can differ, but only by one compaction.
 */
module Swaps {
  import opened Bytes
  import opened Events
  import opened Recovery
  import opened Names
  import opened Disks
  import opened Segments
  import opened Compaction
  import opened Durability
  import opened Preservation
  import opened Runs

  /** `now` is `was`, or `was` compacted. */
  predicate OneSwap(was: seq<Rec>, now: seq<Rec>) {
    now == was || now == Compacted(was)
  }

  lemma SwapTwice(a: seq<Rec>, b: seq<Rec>, c: seq<Rec>)
    requires OneSwap(a, b) && OneSwap(b, c)
    ensures OneSwap(a, c)
  {
    hide Compacted;
    CompactedTwice(a);
  }

  /** Every sealed segment is what its durable entry leads to, or that compacted. */
  ghost predicate Mingled(s: State) {
    && |s.kept| == |s.segs|
    && forall i :: 0 <= i < |s.segs| - 1 ==> OneSwap(s.kept[i], s.segs[i].recs)
  }

  lemma CutMingled(s: State, shape: Shape)
    requires Inv(s) && Mingled(s)
    ensures Mingled(CutState(s, shape))
  {
    hide Tiled, Filed, CutState, CutRaw, Shortened, Mingled, Durable, PowerCut;
    KeptPerSegment(s);
    var k, t := CutKeeps(s, shape);
    if Durable(s) > 0 {
      CutRawMingled(s, shape);
      ShortenedMingled(CutRaw(s, shape), k, t);
    } else {
      CutEmpty(s, shape);
      NoneMingled(INIT.(disk := PowerCut(s.disk, shape)));
    }
  }

  lemma NoneMingled(s: State)
    requires s.segs == [] && s.kept == []
    ensures Mingled(s)
  {
  }

  lemma CutRawMingled(s: State, shape: Shape)
    requires |s.kept| == |s.segs| && Durable(s) > 0
    ensures Mingled(CutRaw(s, shape)) && CutRaw(s, shape).segs != [] && CutRaw(s, shape).hist == s.hist
  {
    hide PowerCut, Compacted;
  }

  lemma ShortenedMingled(s: State, k: nat, t: bytes)
    requires Mingled(s) && s.segs != [] && k <= |Active(s).recs| && Active(s).base + k <= |s.hist|
    ensures Mingled(Shortened(s, k, t))
  {
    hide Compacted;
  }

  lemma ShortWriteMingled(s: State, events: seq<Event>, t: State, k: nat, tail: bytes)
    requires Mingled(s) && WroteSome(s, events, t, k, tail)
    ensures Mingled(t)
  {
    hide EncodeAll, SegmentName, Compacted;
  }

  lemma SwapMingled(s: State, i: nat, tmp: string)
    requires Mingled(s) && i + 1 < |s.segs| && tmp in s.disk.live
    ensures Mingled(AfterSwap(s, i, tmp))
  {
    hide SegmentName, Compacted;
    CompactedTwice(s.kept[i]);
  }

  lemma StepMingled(s: State, step: Step)
    requires Inv(s) && Mingled(s) && Enabled(s, step)
    ensures Mingled(Apply(s, step))
  {
    hide Inv, EncodeAll, SegmentName, CutState, Rescanned, Stamp, OneSwap;
    match step
    case ShortWrite(events, stored) =>
      var k, t := ShortWriteKeeps(s, events, stored);
      ShortWriteMingled(s, events, Apply(s, step), k, t);
    case Cut(shape) => CutMingled(s, shape);
    case Swap(i, tmp) => SwapMingled(s, i, tmp);
    case CreateSegment => CreateMingled(s);
    case Write(events) =>
    case SyncActive =>
    case SyncDirectory => SyncedMingled(s);
    case Other(_) =>
    case Kill =>
    case Reopen =>
  }

  lemma CreateMingled(s: State)
    requires Mingled(s)
    ensures Mingled(AfterCreate(s))
  {
    hide SegmentName, Compacted;
  }

  lemma SyncedMingled(s: State)
    ensures Mingled(AfterSyncDirectory(s))
  {
    hide Compacted;
  }

  lemma {:induction false} RunMingled(s: State, steps: seq<Step>)
    requires Inv(s) && Mingled(s) && Legal(s, steps)
    ensures Mingled(Run(s, steps))
    decreases |steps|
  {
    hide Inv, Mingled, Enabled, Apply;
    if steps != [] {
      StepMingled(s, steps[0]);
      StepKeeps(s, steps[0]);
      RunMingled(Apply(s, steps[0]), steps[1..]);
    }
  }

  lemma ReachableMingled(steps: seq<Step>)
    requires Legal(INIT, steps)
    ensures Mingled(Run(INIT, steps))
  {
    hide Inv, Mingled;
    InitHolds();
    NoneMingled(INIT);
    RunMingled(INIT, steps);
  }

  /** What a cut leaves of a sealed segment is what its durable entry leads to. */
  lemma CutReadsKept(s: State, shape: Shape, i: nat)
    requires Inv(s) && i + 1 < |s.segs|
    ensures |s.kept| == |s.segs| && ReadBack(PowerCut(s.disk, shape), s.segs[i].base) == s.kept[i]
  {
    hide Tiled, Filed, ReadBack, PowerCut, SegmentName, EncodeAll, CutState, Rescanned;
    KeptPerSegment(s);
    var k, t := CutKeeps(s, shape);
    var cut := CutState(s, shape);
    FilesReadBack(cut, i);
    CutDisk(s, shape);
    assert s.kept[i][..|s.kept[i]|] == s.kept[i];
  }

  /**
   * In every reachable state, a cut of any shape leaves each sealed segment exactly its
   * records, or exactly a list whose compaction they are.
   */
  lemma CutLeavesOldOrCompacted(steps: seq<Step>, shape: Shape, i: nat)
    requires Legal(INIT, steps) && i + 1 < |Run(INIT, steps).segs|
    ensures var s := Run(INIT, steps);
            var left := ReadBack(PowerCut(s.disk, shape), s.segs[i].base);
            s.segs[i].recs == left || s.segs[i].recs == Compacted(left)
  {
    hide Inv, ReadBack, PowerCut, Compacted;
    ReachableKeeps(steps);
    ReachableMingled(steps);
    CutReadsKept(Run(INIT, steps), shape, i);
  }

  /**
   * The moment the compacted file is swapped in and its directory entry is not yet durable:
   * without a cut the segment reads as compacted, and a cut of any shape leaves exactly what
   * it would have left just before, of this segment and of every other sealed one.
   */
  lemma CutDuringSwap(s: State, i: nat, tmp: string, shape: Shape, j: nat)
    requires Inv(s) && Enabled(s, Swap(i, tmp)) && j + 1 < |s.segs|
    ensures var swapped := Apply(s, Swap(i, tmp));
            && ReadBack(swapped.disk, s.segs[i].base) == Compacted(s.segs[i].recs)
            && ReadBack(PowerCut(swapped.disk, shape), s.segs[j].base) == ReadBack(PowerCut(s.disk, shape), s.segs[j].base)
  {
    hide Inv, ReadBack, PowerCut, SegmentName, EncodeAll, Compacted, Swappable;
    var swapped := Apply(s, Swap(i, tmp));
    StepKeeps(s, Swap(i, tmp));
    FilesReadBack(swapped, i);
    CutReadsKept(s, shape, j);
    CutReadsKept(swapped, shape, j);
  }

  // ---- From one moment to another ----

  /** Segment `i` is there for good, and what a cut would leave of it has changed by one compaction at most. */
  ghost predicate StillThere(s: State, t: State, i: nat) {
    && |s.kept| == |s.segs| && |t.kept| == |t.segs|
    && i + 1 < Durable(s) && i + 1 < Durable(t)
    && t.segs[i].base == s.segs[i].base && OneSwap(s.kept[i], t.kept[i])
  }

  lemma StepStillThere(s: State, step: Step, i: nat)
    requires Inv(s) && Mingled(s) && Enabled(s, step) && i + 1 < Durable(s)
    ensures StillThere(s, Apply(s, step), i)
  {
    hide Inv, EncodeAll, SegmentName, CutState, Rescanned, Stamp, OneSwap;
    SameIsOneSwap(s.kept[i]);
    match step
    case ShortWrite(events, stored) =>
      var k, t := ShortWriteKeeps(s, events, stored);
    case Cut(shape) => CutStillThere(s, shape, i);
    case Swap(j, tmp) =>
    case CreateSegment =>
    case Write(events) =>
    case SyncActive =>
    case SyncDirectory =>
    case Other(_) =>
    case Kill =>
    case Reopen =>
  }

  lemma SameIsOneSwap(rs: seq<Rec>)
    ensures OneSwap(rs, rs)
  {
  }

  lemma CutStillThere(s: State, shape: Shape, i: nat)
    requires Inv(s) && i + 1 < Durable(s)
    ensures StillThere(s, CutState(s, shape), i)
  {
    hide Tiled, Filed, CutState, PowerCut, OneSwap;
    KeptPerSegment(s);
    SameIsOneSwap(s.kept[i]);
    var k, t := CutKeeps(s, shape);
  }

  lemma {:induction false} RunStillThere(s: State, steps: seq<Step>, i: nat)
    requires Inv(s) && Mingled(s) && Legal(s, steps) && i + 1 < Durable(s)
    ensures StillThere(s, Run(s, steps), i)
    decreases |steps|
  {
    hide Inv, Mingled, Enabled, Apply, OneSwap;
    if steps == [] {
      MingledHere(s, i);
    } else {
      var t := Apply(s, steps[0]);
      StepStillThere(s, steps[0], i);
      StepMingled(s, steps[0]);
      StepKeeps(s, steps[0]);
      RunStillThere(t, steps[1..], i);
      SwapTwice(s.kept[i], t.kept[i], Run(s, steps).kept[i]);
    }
  }

  lemma MingledHere(s: State, i: nat)
    requires Mingled(s) && i + 1 < Durable(s)
    ensures StillThere(s, s, i)
  {
    hide Compacted;
  }

  /**
   * Between any two moments of a run, whatever happens in between: what a cut would leave
   * of a sealed segment at the later one is what it would have left at the earlier one, or
   * that compacted; and so are the records the segment showed at the earlier one.
   */
  lemma OldOrCompactedLater(s: State, steps: seq<Step>, i: nat, shape: Shape)
    requires Inv(s) && Mingled(s) && Legal(s, steps) && s.named && i + 1 < |s.segs|
    ensures var was := ReadBack(PowerCut(s.disk, shape), s.segs[i].base);
            && OneSwap(was, s.segs[i].recs)
            && OneSwap(was, ReadBack(PowerCut(Run(s, steps).disk, shape), s.segs[i].base))
  {
    hide Inv, ReadBack, PowerCut, Compacted, Enabled, Apply;
    RunStillThere(s, steps, i);
    RunKeeps(s, steps);
    CutReadsKept(s, shape, i);
    CutReadsKept(Run(s, steps), shape, i);
  }
}
