/**
 * What holds of every run of the machine: any sequence of writes, syncs, rolls,
 * compactions, short writes, process deaths, power cuts and reopenings. The
 * conclusions are read off the disk's bytes alone.
 */
module Runs {
  import opened Wrappers
  import opened Bytes
  import opened Events
  import opened Records
  import opened Recovery
  import opened SparseIndex
  import opened Names
  import opened Disks
  import opened Segments
  import opened Compaction
  import opened Durability
  import opened Preservation

  ghost predicate Legal(s: State, steps: seq<Step>)
    decreases |steps|
  {
    steps == [] || (Enabled(s, steps[0]) && Legal(Apply(s, steps[0]), steps[1..]))
  }

  ghost function Run(s: State, steps: seq<Step>): State
    requires Legal(s, steps)
    decreases |steps|
  {
    if steps == [] then s else Run(Apply(s, steps[0]), steps[1..])
  }

  lemma {:induction false} RunKeeps(s: State, steps: seq<Step>)
    requires Inv(s) && Legal(s, steps)
    ensures Inv(Run(s, steps))
    decreases |steps|
  {
    hide Inv, Enabled, Apply;
    if steps != [] {
      StepKeeps(s, steps[0]);
      RunKeeps(Apply(s, steps[0]), steps[1..]);
    }
  }

  /** Every reachable state satisfies the invariant. */
  lemma ReachableKeeps(steps: seq<Step>)
    requires Legal(INIT, steps)
    ensures Inv(Run(INIT, steps))
  {
    hide Inv;
    InitHolds();
    RunKeeps(INIT, steps);
  }

  // ---- Acknowledged history ----

  /** `t` still has everything `s` acknowledged. */
  ghost predicate Remembers(s: State, t: State) {
    && s.acked <= t.acked && s.acked <= |s.hist| && s.acked <= |t.hist|
    && forall o :: 0 <= o < s.acked ==> t.hist[o] == s.hist[o]
  }

  lemma AckedWithin(s: State)
    requires Tiled(s)
    ensures s.acked <= |s.hist|
  {
    hide SealedTiled, AllFramable;
  }

  lemma StepRemembers(s: State, step: Step)
    requires Inv(s) && Enabled(s, step)
    ensures Remembers(s, Apply(s, step))
  {
    hide Tiled, Stored, CutState, Rescanned, SegmentName, EncodeAll, Stamp;
    AckedWithin(s);
    if step.ShortWrite? {
      var k, t := ShortWriteKeeps(s, step.events, step.stored);
      ShortWriteRemembers(s, step.events, Apply(s, step), k, t);
    } else if step.Cut? {
      CutRemembers(s, step.shape);
    }
  }

  lemma ShortWriteRemembers(s: State, events: seq<Event>, t: State, k: nat, tail: bytes)
    requires Tiled(s) && WroteSome(s, events, t, k, tail)
    ensures Remembers(s, t)
  {
    hide SealedTiled, AllFramable, SegmentName, EncodeAll;
    AckedWithin(s);
  }

  lemma CutRemembers(s: State, shape: Shape)
    requires Inv(s)
    ensures Remembers(s, CutState(s, shape))
  {
    hide SealedTiled, AllFramable, Stored, CutState, PowerCut, Stamp;
    var k, t := CutKeeps(s, shape);
    if Durable(s) > 0 {
      CutRawTiled(s, shape);
    } else {
      CutEmpty(s, shape);
    }
  }

  lemma CutEmpty(s: State, shape: Shape)
    requires |s.kept| == |s.segs| && Durable(s) == 0
    ensures CutState(s, shape) == INIT.(disk := PowerCut(s.disk, shape))
  {
  }

  lemma {:induction false} RunRemembers(s: State, steps: seq<Step>)
    requires Inv(s) && Legal(s, steps)
    ensures Remembers(s, Run(s, steps))
    decreases |steps|
  {
    hide Inv, Enabled, Apply;
    if steps == [] {
      AckedStill(s);
    } else {
      StepKeeps(s, steps[0]);
      StepRemembers(s, steps[0]);
      RunRemembers(Apply(s, steps[0]), steps[1..]);
    }
  }

  lemma AckedStill(s: State)
    requires Inv(s)
    ensures Remembers(s, s)
  {
    hide Tiled, Stored;
    AckedWithin(s);
  }

  // ---- What the bytes say ----

  /** The records a reader of this disk finds in the segment at `base`. */
  ghost function ReadBack(d: Disk, base: nat): seq<Rec> {
    var name := SegmentName(base);
    if name in d.live && d.live[name] < |d.inodes| then Scan(d.inodes[d.live[name]].data, base).records else []
  }

  ghost predicate Present(d: Disk, base: nat, off: nat, e: Event) {
    Rec(off, e) in ReadBack(d, base)
  }

  /** A later record with the key survives in the segment that held offset `off`. */
  ghost predicate SupersededIn(d: Disk, base: nat, off: nat, e: Event) {
    base <= off && exists r :: r in ReadBack(d, base) && r.offset > off && r.event.key == e.key
  }

  /** Every segment file, scanned, gives back exactly its records. */
  lemma FilesReadBack(s: State, i: nat)
    requires Inv(s) && i < |s.segs|
    ensures ReadBack(s.disk, s.segs[i].base) == s.segs[i].recs
  {
    hide EncodeAll, Unframed, SegmentName, ParseSegmentName, HasBase, Stamp, AllFramable, Covers, Scan;
    BasesFit(s);
    if i + 1 < |s.segs| {
      assert SealedTiled(s, i) && SealedStored(s, i);
      UnframedZeros(0);
      assert Zeros(0) == [] && EncodeAll(s.segs[i].recs) + [] == EncodeAll(s.segs[i].recs);
      ScanExact(s.segs[i].base, s.segs[i].recs, []);
    } else {
      StampedFrom(s.hist, s.segs[i].base);
      StampAlone(s.segs[i].base, s.hist[s.segs[i].base..]);
      ScanExact(s.segs[i].base, s.segs[i].recs, s.tail);
    }
  }

  lemma {:induction false} SegmentOf(s: State, off: nat, n: nat) returns (i: nat)
    requires Tiled(s) && 0 < n <= |s.segs| && off < End(s, n - 1)
    ensures i < n && s.segs[i].base <= off < End(s, i)
    decreases n
  {
    hide Version, AllFramable;
    if n == 1 || s.segs[n - 1].base <= off {
      i := n - 1;
    } else {
      i := SegmentOf(s, off, n - 1);
    }
  }

  /** Any part of the history is covered by the records of its segment. */
  lemma HistoryIsCovered(s: State, off: nat) returns (base: nat)
    requires Inv(s) && off < |s.hist|
    ensures base <= off && SegmentName(base) in s.disk.live
    ensures Present(s.disk, base, off, s.hist[off]) || SupersededIn(s.disk, base, off, s.hist[off])
  {
    hide Stored, EncodeAll, SegmentName, Stamp, AllFramable, ReadBack, Covers;
    assert s.segs != [];
    var i := SegmentOf(s, off, |s.segs|);
    base := s.segs[i].base;
    NamesPresent(s, i);
    FilesReadBack(s, i);
    var rs := s.segs[i].recs;
    if i + 1 < |s.segs| {
      assert SealedTiled(s, i);
      assert Covers(rs, s.hist[off], off);
      var j := CoveredBy(rs, s.hist[off], off);
      assert rs[j] in rs;
      if rs[j].offset == off {
        assert rs[j] == Rec(off, s.hist[off]);
      }
    } else {
      StampedFrom(s.hist, base);
      assert rs[off - base] == Rec(off, s.hist[off]);
    }
  }

  lemma NamesPresent(s: State, i: nat)
    requires Stored(s) && i < |s.segs|
    ensures SegmentName(s.segs[i].base) in s.disk.live
  {
    hide EncodeAll, SegmentName, ParseSegmentName, HasBase, SealedStored, ActiveFiled, ActiveHolds, Unframed;
  }

  /**
   * Durability. Take any run, and any moment in it. Every record below the tail when a
   * sync last returned is, after any continuation of the run, on the disk unchanged, or
   * missing only because a later record with its key survives in its segment.
   */
  lemma AcknowledgedSurvives(before: seq<Step>, after: seq<Step>, off: nat) returns (base: nat)
    requires Legal(INIT, before) && Legal(Run(INIT, before), after)
    requires off < Run(INIT, before).acked
    ensures var s, t := Run(INIT, before), Run(Run(INIT, before), after);
            && off < |s.hist| && off < |t.hist| && t.hist[off] == s.hist[off]
            && base <= off && SegmentName(base) in t.disk.live
            && (Present(t.disk, base, off, s.hist[off]) || SupersededIn(t.disk, base, off, s.hist[off]))
  {
    hide Inv, Present, SupersededIn;
    var s := Run(INIT, before);
    ReachableKeeps(before);
    RunKeeps(s, after);
    RunRemembers(s, after);
    base := HistoryIsCovered(Run(s, after), off);
  }

  /** Recovery never invents: every record on the disk is the one its offset was assigned. */
  lemma NothingInvented(steps: seq<Step>, base: nat, r: Rec)
    requires Legal(INIT, steps) && base < TWO64
    requires r in ReadBack(Run(INIT, steps).disk, base)
    ensures r.offset < |Run(INIT, steps).hist| && r.event == Run(INIT, steps).hist[r.offset]
  {
    hide Inv, ReadBack;
    ReachableKeeps(steps);
    var s := Run(INIT, steps);
    var i := NamedSegment(s, base, r);
    FilesReadBack(s, i);
    RecordsAreHistory(s, i, r);
  }

  /** A record read back under some base belongs to the segment there. */
  lemma NamedSegment(s: State, base: nat, r: Rec) returns (i: nat)
    requires Inv(s) && base < TWO64 && r in ReadBack(s.disk, base)
    ensures i < |s.segs| && s.segs[i].base == base
  {
    hide Tiled, EncodeAll, SegmentName, ParseSegmentName, Scan, SealedStored, ActiveFiled, ActiveHolds, Unframed;
    NamesAreDistinct();
    assert HasBase(s.segs, |s.segs|, ParseSegmentName(SegmentName(base)).value);
    i :| 0 <= i < |s.segs| && s.segs[i].base == base;
  }

  lemma RecordsAreHistory(s: State, i: nat, r: Rec)
    requires Inv(s) && i < |s.segs| && r in s.segs[i].recs
    ensures r.offset < |s.hist| && r.event == s.hist[r.offset]
  {
    hide Stored, AllFramable, Covers, Ascending;
    BasesFit(s);
    if i + 1 < |s.segs| {
      assert SealedTiled(s, i);
    } else {
      StampedFrom(s.hist, s.segs[i].base);
    }
  }

  // ---- The shape of the log ----

  lemma CoveredBy(rs: seq<Rec>, e: Event, off: nat) returns (j: nat)
    requires Covers(rs, e, off)
    ensures j < |rs| && rs[j].offset >= off && rs[j].event.key == e.key
  {
    j :| 0 <= j < |rs| && rs[j].offset >= off && rs[j].event.key == e.key;
  }

  /** A version ends with the last offset it stands for, so nothing moves the next one. */
  lemma VersionEnds(rs: seq<Rec>, h: seq<Event>, lo: nat, hi: nat)
    requires Version(rs, h, lo, hi) && lo < hi
    ensures rs != [] && NextOf(lo, rs) == hi
  {
    hide Ascending, Covers;
    assert Covers(rs, h[hi - 1], hi - 1);
    var j := CoveredBy(rs, h[hi - 1], hi - 1);
    InOrder(lo, rs, |rs| - 1, j);
  }

  /** One sealed segment's file: whole records, all of them synced, up to the next segment's base. */
  ghost predicate SealedFile(d: Disk, base: nat, next: nat) {
    var name, rs := SegmentName(base), ReadBack(d, base);
    && base < next && name in d.live && rs != [] && NextOf(base, rs) == next
    && Holds(d, d.live[name], EncodeAll(rs), EncodeAll(rs))
  }

  /**
   * In every reachable state the segments tile the log from offset 0: bases ascend, each
   * is where the one before it ends, and every segment but the last is whole records whose
   * visible bytes are its synced bytes. Only the last can hold anything else, and what it
   * holds is its synced records, then others, then a tail no reader takes a record from.
   */
  lemma SegmentsTile(steps: seq<Step>)
    requires Legal(INIT, steps)
    ensures Run(INIT, steps).segs != [] ==> TilesTheLog(Run(INIT, steps))
  {
    hide Inv, TilesTheLog;
    ReachableKeeps(steps);
    if Run(INIT, steps).segs != [] {
      InvariantTiles(Run(INIT, steps));
    }
  }

  ghost predicate TilesTheLog(s: State) {
    var d := s.disk;
    && HasActiveFile(s) && s.segs[0].base == 0
    && (forall i :: 0 <= i < |s.segs| - 1 ==> SealedFile(d, s.segs[i].base, End(s, i)))
    && NextOf(Active(s).base, Active(s).recs) == |s.hist|
    && Unframed(s.tail) && (s.up ==> s.tail == [])
    && d.inodes[ActiveNode(s)].data == EncodeAll(Active(s).recs) + s.tail
    && s.synced <= |Active(s).recs|
    && d.inodes[ActiveNode(s)].durable == EncodeAll(Active(s).recs[..s.synced])
  }

  lemma InvariantTiles(s: State)
    requires Inv(s) && s.segs != []
    ensures TilesTheLog(s)
  {
    hide EncodeAll, SegmentName, ParseSegmentName, HasBase, AllFramable, Unframed, ReadBack, Version;
    forall i | 0 <= i < |s.segs| - 1 ensures SealedFile(s.disk, s.segs[i].base, End(s, i)) {
      assert SealedTiled(s, i) && SealedStored(s, i);
      FilesReadBack(s, i);
      VersionEnds(s.segs[i].recs, s.hist, s.segs[i].base, End(s, i));
    }
  }

  // ---- One power cut ----

  lemma CutDisk(s: State, shape: Shape)
    requires |s.kept| == |s.segs|
    ensures CutState(s, shape).disk == PowerCut(s.disk, shape)
  {
    hide PowerCut, Rescanned, SegmentName, EncodeAll;
    if Durable(s) > 0 {
      var raw := CutRaw(s, shape);
      if HasActiveFile(raw) {
        RescanDisk(raw);
      }
    }
  }

  lemma CutIsARun(s: State, shape: Shape)
    requires |s.kept| == |s.segs|
    ensures Legal(s, [Cut(shape)]) && Run(s, [Cut(shape)]) == CutState(s, shape)
  {
    hide CutState;
    assert [Cut(shape)][1..] == [];
    assert Legal(s, [Cut(shape)]);
  }

  lemma RescanDisk(s: State)
    requires HasActiveFile(s)
    ensures Rescanned(s).disk == s.disk
  {
    hide EncodeAll, SegmentName, Scan;
  }

  /** A cut at any moment takes back at most the active segment's unsynced records. */
  lemma CutLosesOnlyUnsynced(s: State, shape: Shape)
    requires Inv(s)
    ensures var t := CutState(s, shape);
            && t.hist <= s.hist
            && (s.segs != [] ==> |s.hist| - |t.hist| <= |Active(s).recs| - s.synced)
  {
    hide SealedTiled, AllFramable, Stored, CutState, PowerCut, Stamp;
    var k, t := CutKeeps(s, shape);
    if Durable(s) > 0 {
      CutRawTiled(s, shape);
      var raw := CutRaw(s, shape);
      assert |Active(raw).recs| == |s.hist| - Active(raw).base;
    } else {
      CutEmpty(s, shape);
    }
  }

  /** What opening the log finds after a run ended by a cut, a kill or a short write. */
  lemma RecoveryFinds(s: State)
    requires Inv(s) && s.segs != []
    ensures HasActiveFile(s)
    ensures var f := Scan(s.disk.inodes[ActiveNode(s)].data, Active(s).base);
            && f.records == Active(s).recs
            && f.valid == |EncodeAll(Active(s).recs)|
            && f.discarded == |s.tail|
            && f.next == |s.hist|
  {
    hide EncodeAll, Unframed, SegmentName, ParseSegmentName, HasBase, Stamp, AllFramable, Scan, Filed, SealedTiled;
    BasesFit(s);
    StampedFrom(s.hist, Active(s).base);
    StampAlone(Active(s).base, s.hist[Active(s).base..]);
    ScanExact(Active(s).base, Active(s).recs, s.tail);
  }

  // ---- Why a new segment's directory entry must be synced before it is used ----

  /**
   * A process that dies between creating a segment, the first or any later one, and syncing
   * the directory, and is reopened on the same machine, finds the file and does not sync the
   * directory again. Whatever it then writes there and syncs is gone after the next power
   * cut, of any shape; Reopen is therefore enabled only when the entry is durable.
   */
  lemma UnnamedSegmentIsLost(s: State, p: bytes, shape: Shape)
    requires Inv(s) && Enabled(s, CreateSegment)
    ensures var dead := Apply(s, CreateSegment).(up := false);
            && Enabled(Apply(s, CreateSegment), Kill) && HasActiveFile(dead) && !Enabled(dead, Reopen)
            && var node, name := ActiveNode(dead), SegmentName(|s.hist|);
               var d := FileSynced(Appended(dead.disk, node, p), node);
               && name in d.live && d.inodes[node] == Inode(p, p)
               && name !in PowerCut(d, shape).live && ReadBack(PowerCut(d, shape), |s.hist|) == []
  {
    hide Inv, SegmentName, Scan, EncodeAll;
    CreateEntries(s);
    NewBaseUnknown(s);
    assert [] + p == p;
  }

  lemma NewBaseUnknown(s: State)
    requires Inv(s) && Enabled(s, CreateSegment)
    ensures SegmentName(|s.hist|) !in s.disk.durable
  {
    hide Tiled, SegmentName, ParseSegmentName, EncodeAll, SealedStored, ActiveFiled, ActiveHolds, Unframed;
    NewBaseIsNew(s);
    NamesAreDistinct();
    assert ParseSegmentName(SegmentName(|s.hist|)).Some?;
  }

  /**
   * A swap puts its file under the name of the base it was given. The directory then lists
   * exactly the log's segments if and only if that base is one of theirs; otherwise the
   * next opening finds a segment that overlaps another.
   */
  lemma SwapKeepsListing(s: State, tmp: string, base: nat)
    requires Inv(s) && tmp in s.disk.live && ParseSegmentName(tmp).None? && base < TWO64
    ensures Entries(Renamed(s.disk, tmp, SegmentName(base)).live, s.segs, |s.segs|) <==> HasBase(s.segs, |s.segs|, base)
  {
    hide Tiled, SegmentName, ParseSegmentName, SealedStored, ActiveFiled, ActiveHolds, Unframed, EncodeAll, HasBase;
    SegmentNamesAreDistinct(s);
    ParseSegmentNameOfName(base);
    var name, live := SegmentName(base), Renamed(s.disk, tmp, SegmentName(base)).live;
    assert name in live;
    if HasBase(s.segs, |s.segs|, base) {
      forall i | 0 <= i < |s.segs| ensures SegmentName(s.segs[i].base) in live {
        assert SegmentName(s.segs[i].base) in s.disk.live;
      }
      forall n | n in live && ParseSegmentName(n).Some? ensures HasBase(s.segs, |s.segs|, ParseSegmentName(n).value) {
        assert n == name || n in s.disk.live;
      }
    }
  }
}
