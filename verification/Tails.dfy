/**
 * How far back a power cut can take the tail. A record is acknowledged exactly when it is
 * among the active segment's synced ones or before them, so the acknowledged tail is not
 * only a promise but the whole of it: some cut takes everything after it away. That decides
 * which offsets a consumer may commit to, or take a snapshot at (log/group.go, log/snapshot.go).
 */
module Tails {
  import opened Bytes
  import opened Events
  import opened Recovery
  import opened SparseIndex
  import opened Names
  import opened Disks
  import opened Segments
  import opened Durability
  import opened Preservation
  import opened Runs

  /** The acknowledged tail is where the synced records end. */
  ghost predicate Exact(s: State) {
    s.acked == if s.segs == [] then 0 else Active(s).base + s.synced
  }

  lemma CreateExact(s: State)
    requires Inv(s) && Exact(s) && Enabled(s, CreateSegment)
    ensures Exact(AfterCreate(s))
  {
    hide Stored, SealedTiled, AllFramable, SegmentName;
    if s.segs != [] {
      StampedFrom(s.hist, Active(s).base);
    }
  }

  lemma SyncExact(s: State)
    requires Inv(s) && HasActiveFile(s)
    ensures Exact(AfterSync(s))
  {
    hide Stored, SealedTiled, AllFramable, SegmentName;
    StampedFrom(s.hist, Active(s).base);
  }

  /** The durable part of the log is as exact: an unnamed segment is empty, and begins where the one before ends. */
  lemma RawExact(s: State, shape: Shape)
    requires Tiled(s) && Exact(s) && Durable(s) > 0
    ensures CutRaw(s, shape).segs != [] && Exact(CutRaw(s, shape)) && CutRaw(s, shape).hist == s.hist
  {
    hide SealedTiled, AllFramable, PowerCut, Stamp;
    if !s.named {
      LastTwo(s);
    }
  }

  lemma LastTwo(s: State)
    requires Tiled(s) && !s.named && |s.segs| > 1
    ensures s.segs[|s.segs| - 2].base + |s.kept[|s.segs| - 2]| == Active(s).base && s.synced == 0
  {
    hide SealedTiled, AllFramable;
  }

  lemma ShortenedExact(s: State, k: nat, t: bytes)
    requires Exact(s) && s.segs != [] && k <= |Active(s).recs| && Active(s).base + k <= |s.hist|
    ensures Exact(Shortened(s, k, t))
  {
  }

  lemma CutExact(s: State, shape: Shape)
    requires Inv(s) && Exact(s)
    ensures Exact(CutState(s, shape))
  {
    hide Tiled, Filed, CutState, CutRaw, Exact, Shortened;
    KeptPerSegment(s);
    var k, t := CutKeeps(s, shape);
    if Durable(s) == 0 {
      CutEmpty(s, shape);
      NothingExact(CutState(s, shape));
    } else {
      RawExact(s, shape);
      ShortenedExact(CutRaw(s, shape), k, t);
    }
  }

  lemma NothingExact(s: State)
    requires s.segs == [] && s.acked == 0
    ensures Exact(s)
  {
  }

  lemma StepExact(s: State, step: Step)
    requires Inv(s) && Exact(s) && Enabled(s, step)
    ensures Exact(Apply(s, step))
  {
    hide Inv, EncodeAll, SegmentName, CutState, Rescanned, Stamp;
    match step
    case ShortWrite(events, stored) => var k, t := ShortWriteKeeps(s, events, stored);
    case Cut(shape) => CutExact(s, shape);
    case CreateSegment => CreateExact(s);
    case SyncActive => SyncExact(s);
    case Swap(i, tmp) =>
    case Write(events) =>
    case SyncDirectory =>
    case Other(_) =>
    case Kill =>
    case Reopen =>
  }

  lemma {:induction false} RunExact(s: State, steps: seq<Step>)
    requires Inv(s) && Exact(s) && Legal(s, steps)
    ensures Exact(Run(s, steps))
    decreases |steps|
  {
    hide Inv, Exact, Enabled, Apply;
    if steps != [] {
      StepExact(s, steps[0]);
      StepKeeps(s, steps[0]);
      RunExact(Apply(s, steps[0]), steps[1..]);
    }
  }

  lemma ReachableExact(steps: seq<Step>)
    requires Legal(INIT, steps)
    ensures Exact(Run(INIT, steps))
  {
    hide Inv;
    InitHolds();
    RunExact(INIT, steps);
  }

  /** A cut that loses every unsynced byte leaves the active segment exactly its synced records. */
  lemma RevertedActive(s: State) returns (k: nat, t: bytes)
    requires Inv(s) && Durable(s) > 0
    ensures |s.kept| == |s.segs|
    ensures var raw := CutRaw(s, Reverted);
            k == raw.synced <= |Active(raw).recs| && Active(raw).base + k <= |s.hist| && CutState(s, Reverted) == Shortened(raw, k, t)
  {
    hide Tiled, Filed, CutState, PowerCut, EncodeAll, SegmentName, Unframed, Rescanned;
    KeptPerSegment(s);
    k, t := CutKeeps(s, Reverted);
    var raw := CutRaw(s, Reverted);
    RevertedBytes(s, k, t);
    NoMoreThan(Active(raw).recs, raw.synced, k);
  }

  lemma RevertedBytes(s: State, k: nat, t: bytes)
    requires Inv(s) && Durable(s) > 0 && |s.kept| == |s.segs|
    requires var raw := CutRaw(s, Reverted);
             raw.synced <= k <= |Active(raw).recs| && Active(raw).base + k <= |s.hist| && CutState(s, Reverted) == Shortened(raw, k, t)
    ensures var raw := CutRaw(s, Reverted);
            |EncodeAll(Active(raw).recs[..k])| <= |EncodeAll(Active(raw).recs[..raw.synced])|
  {
    hide Tiled, Filed, CutState, EncodeAll, SegmentName, Unframed, Rescanned, Ascending;
    var raw := CutRaw(s, Reverted);
    var tail := NextActiveFile(s, Reverted);
    var k2, t2 := CutKeeps(s, Reverted);
    var cut := CutState(s, Reverted);
    var name := SegmentName(Active(raw).base);
    assert s.disk.durable[name] in s.disk.durable.Values;
    assert cut.disk == PowerCut(s.disk, Reverted);
  }

  lemma NoMoreThan(rs: seq<Rec>, i: nat, j: nat)
    requires i <= j <= |rs| && |EncodeAll(rs[..j])| <= |EncodeAll(rs[..i])|
    ensures i == j
  {
    hide EncodeAll;
    StartsAscend(rs, i, j);
  }

  /** So the tail it leaves is the acknowledged one, to the record. */
  lemma RevertedTail(s: State)
    requires Inv(s) && Exact(s)
    ensures |s.kept| == |s.segs| && |CutState(s, Reverted).hist| == s.acked
  {
    hide SealedTiled, AllFramable, Filed, CutState, PowerCut, Stamp;
    KeptPerSegment(s);
    if Durable(s) > 0 {
      var k, t := RevertedActive(s);
      CutExact(s, Reverted);
    } else {
      CutEmpty(s, Reverted);
    }
  }

  /**
   * An offset is within the log after every continuation, power cuts included, if and only
   * if it is acknowledged now.
   */
  lemma StaysWithin(s: State, off: nat)
    requires Inv(s) && Exact(s)
    ensures (forall steps :: Legal(s, steps) ==> off <= |Run(s, steps).hist|) <==> off <= s.acked
  {
    hide Inv, Exact, Enabled, Apply;
    if off <= s.acked {
      forall steps | Legal(s, steps) ensures off <= |Run(s, steps).hist| {
        RunRemembers(s, steps);
      }
    } else {
      RevertedTail(s);
      CutIsARun(s, Reverted);
      assert off > |Run(s, [Cut(Reverted)]).hist|;
    }
  }
}
