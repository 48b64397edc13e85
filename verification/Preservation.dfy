/** Every step of the machine keeps the invariant. */
module Preservation {
  import opened Wrappers
  import opened Bytes
  import opened Events
  import opened Records
  import opened Recovery
  import opened SparseIndex
  import opened Names
  import opened Disks
  import opened Segments
  import opened Compaction
  import opened Durability

  // ---- Names and bases ----

  lemma NamesAreDistinct()
    ensures forall a: nat {:trigger SegmentName(a)} :: a < TWO64 ==> ParseSegmentName(SegmentName(a)) == Some(a)
  {
    hide SegmentName, ParseSegmentName;
    forall a: nat | a < TWO64 ensures ParseSegmentName(SegmentName(a)) == Some(a) {
      ParseSegmentNameOfName(a);
    }
  }

  lemma {:induction false} BasesAscend(s: State, i: nat, j: nat)
    requires Tiled(s) && i < j < |s.segs|
    ensures s.segs[i].base < s.segs[j].base <= |s.hist|
    decreases j
  {
    hide Version;
    assert SealedTiled(s, j - 1);
    if i < j - 1 {
      BasesAscend(s, i, j - 1);
    }
  }

  lemma BasesFit(s: State)
    requires Tiled(s)
    ensures forall i :: 0 <= i < |s.segs| ==> s.segs[i].base <= |s.hist| < TWO64
    ensures forall i, j :: 0 <= i < j < |s.segs| ==> s.segs[i].base < s.segs[j].base
  {
    hide Version;
    forall i | 0 <= i < |s.segs| ensures s.segs[i].base <= |s.hist| {
      if i + 1 < |s.segs| {
        BasesAscend(s, i, i + 1);
      }
    }
    forall i, j | 0 <= i < j < |s.segs| ensures s.segs[i].base < s.segs[j].base {
      BasesAscend(s, i, j);
    }
  }

  /** No two segments share a name, and none shares a name with a file that is not one. */
  lemma SegmentNamesAreDistinct(s: State)
    requires Tiled(s)
    ensures forall i :: 0 <= i < |s.segs| ==> ParseSegmentName(SegmentName(s.segs[i].base)) == Some(s.segs[i].base)
    ensures forall i, j :: 0 <= i < j < |s.segs| ==> SegmentName(s.segs[i].base) != SegmentName(s.segs[j].base)
  {
    hide Tiled, SegmentName, ParseSegmentName;
    BasesFit(s);
    NamesAreDistinct();
  }

  /** The active file belongs to no other segment, in either directory. */
  lemma ActiveIsAlone(s: State)
    requires Inv(s) && s.segs != []
    ensures HasActiveFile(s)
    ensures forall i :: 0 <= i < |s.segs| - 1 ==>
              var name := SegmentName(s.segs[i].base);
              && name in s.disk.live && name in s.disk.durable
              && s.disk.live[name] != ActiveNode(s) && s.disk.durable[name] != ActiveNode(s)
  {
    hide Tiled, SegmentName, ParseSegmentName, SealedStored, EncodeAll, Unframed, HasBase;
    SegmentNamesAreDistinct(s);
  }

  // ---- Versions of a stretch of history ----

  lemma VersionOfPrefix(rs: seq<Rec>, h: seq<Event>, g: seq<Event>, lo: nat, hi: nat)
    requires Version(rs, h, lo, hi) && hi <= |g|
    requires forall o :: 0 <= o < hi ==> g[o] == h[o]
    ensures Version(rs, g, lo, hi)
  {
    hide Covers, Ascending;
  }

  lemma VersionOfStamp(h: seq<Event>, lo: nat)
    requires lo <= |h| < TWO64 && AllFramable(h)
    ensures Version(Stamp(lo, h[lo..]), h, lo, |h|)
  {
    hide Ascending, Covers, Stamp, AllFramable;
    var rs := Stamp(lo, h[lo..]);
    StampedFrom(h, lo);
    StampAlone(lo, h[lo..]);
    forall o | lo <= o < |h| ensures Covers(rs, h[o], o) {
      CoversItself(rs, o - lo);
    }
  }

  lemma StampAlone(lo: nat, events: seq<Event>)
    requires lo + |events| < TWO64 && AllFramable(events)
    ensures Ascending(lo, Stamp(lo, events))
  {
    StampAscends(lo, [], events);
    assert [] + Stamp(lo, events) == Stamp(lo, events);
  }

  lemma StampedFrom(h: seq<Event>, lo: nat)
    requires lo <= |h|
    ensures forall j :: 0 <= j < |h| - lo ==> Stamp(lo, h[lo..])[j] == Rec(lo + j, h[lo + j])
    ensures AllFramable(h) ==> AllFramable(h[lo..])
  {
  }

  lemma CoversItself(rs: seq<Rec>, j: nat)
    requires j < |rs|
    ensures Covers(rs, rs[j].event, rs[j].offset)
  {
  }

  /** Compacting a version gives a version: what it drops is superseded in what it keeps. */
  lemma VersionCompacted(rs: seq<Rec>, h: seq<Event>, lo: nat, hi: nat)
    requires Version(rs, h, lo, hi)
    ensures Version(Compacted(rs), h, lo, hi)
  {
    hide Ascending;
    var kept := Compacted(rs);
    CompactedAscends(lo, rs);
    forall j | 0 <= j < |kept| ensures kept[j].offset < hi && kept[j].event == h[kept[j].offset] {
      CompactedComesFrom(rs, kept[j]);
    }
    forall o | lo <= o < hi ensures Covers(kept, h[o], o) {
      assert Covers(rs, h[o], o);
      var i :| 0 <= i < |rs| && rs[i].offset >= o && rs[i].event.key == h[o].key;
      var j := DroppedIsSuperseded(lo, rs, i);
    }
  }

  lemma SealedTiledFrame(s: State, t: State, i: nat)
    requires i + 1 < |s.segs| == |s.kept| && i + 1 < |t.segs| == |t.kept|
    requires SealedTiled(s, i) && t.segs[i].base == s.segs[i].base && End(t, i) == End(s, i)
    requires t.segs[i].recs == s.segs[i].recs || t.segs[i].recs == s.kept[i] || t.segs[i].recs == Compacted(s.segs[i].recs)
    requires t.kept[i] == s.kept[i] || t.kept[i] == s.segs[i].recs
    requires End(s, i) <= |t.hist| && forall o :: 0 <= o < End(s, i) ==> t.hist[o] == s.hist[o]
    ensures SealedTiled(t, i)
  {
    hide Version;
    var lo, hi := s.segs[i].base, End(s, i);
    VersionOfPrefix(s.segs[i].recs, s.hist, t.hist, lo, hi);
    VersionOfPrefix(s.kept[i], s.hist, t.hist, lo, hi);
    VersionCompacted(s.segs[i].recs, s.hist, lo, hi);
    VersionOfPrefix(Compacted(s.segs[i].recs), s.hist, t.hist, lo, hi);
  }

  // ---- Writing ----

  lemma WriteTiled(s: State, events: seq<Event>)
    requires Tiled(s) && Enabled(s, Write(events))
    ensures Tiled(Apply(s, Write(events)))
  {
    hide SealedTiled, EncodeAll, Framable;
    var t := Apply(s, Write(events));
    forall i | 0 <= i < |t.segs| - 1 ensures SealedTiled(t, i) {
      assert SealedTiled(s, i);
      BasesFit(s);
      SealedTiledFrame(s, t, i);
    }
    var base := Active(s).base;
    assert t.hist[base..] == s.hist[base..] + events;
    assert Stamp(base, t.hist[base..]) == Stamp(base, s.hist[base..]) + Stamp(|s.hist|, events);
  }

  lemma WriteStored(s: State, events: seq<Event>)
    requires Inv(s) && Enabled(s, Write(events))
    ensures Stored(Apply(s, Write(events)))
  {
    hide Tiled, SegmentName, EncodeAll, AllFramable, Stamp, Filed, Unframed;
    var more := Stamp(|s.hist|, events);
    var recs := Active(s).recs;
    AppendFiled(s, Apply(s, Write(events)), EncodeAll(more));
    EncodeAllConcat(recs, more);
    assert (recs + more)[..s.synced] == recs[..s.synced];
    assert (EncodeAll(recs) + []) + EncodeAll(more) == EncodeAll(recs + more) + [];
  }

  /** Bytes added to the active file touch no other segment. */
  lemma AppendFiled(s: State, t: State, p: bytes)
    requires Inv(s) && s.segs != [] && HasActiveFile(s)
    requires t.disk == Appended(s.disk, ActiveNode(s), p)
    requires |t.segs| == |s.segs| && t.kept == s.kept && t.named == s.named
    requires Active(t).base == Active(s).base && forall i :: 0 <= i < |s.segs| - 1 ==> t.segs[i] == s.segs[i]
    ensures Filed(t)
  {
    hide Tiled, SegmentName, ParseSegmentName, EncodeAll, HasBase, Unframed;
    ActiveIsAlone(s);
    SameEntries(s, t);
    forall i | 0 <= i < |t.segs| - 1 ensures SealedStored(t, i) {
      assert SealedStored(s, i);
    }
  }

  lemma SameEntries(s: State, t: State)
    requires Filed(s) && |t.segs| == |s.segs| && t.named == s.named
    requires forall i :: 0 <= i < |s.segs| ==> t.segs[i].base == s.segs[i].base
    ensures Durable(t) == Durable(s)
    ensures Entries(s.disk.live, t.segs, |t.segs|) && Entries(s.disk.durable, t.segs, Durable(t))
  {
    hide Entries, SealedStored, ActiveFiled, Sound;
    EntriesFrame(s.disk.live, s.segs, t.segs, |s.segs|);
    EntriesFrame(s.disk.durable, s.segs, t.segs, Durable(s));
  }

  lemma EntriesFrame(m: map<string, nat>, a: seq<Seg>, b: seq<Seg>, n: nat)
    requires n <= |a| && n <= |b| && Entries(m, a, n)
    requires forall i :: 0 <= i < n ==> a[i].base == b[i].base
    ensures Entries(m, b, n)
  {
    forall name | name in m && ParseSegmentName(name).Some?
      ensures HasBase(b, n, ParseSegmentName(name).value)
    {
      var i :| 0 <= i < n && a[i].base == ParseSegmentName(name).value;
      assert b[i].base == a[i].base;
    }
  }

  // ---- Syncing ----

  lemma SyncTiled(s: State)
    requires Tiled(s) && Enabled(s, SyncActive)
    ensures Tiled(Apply(s, SyncActive))
  {
    hide SealedTiled;
    var t := Apply(s, SyncActive);
    forall i | 0 <= i < |t.segs| - 1 ensures SealedTiled(t, i) {
      BasesFit(s);
      assert SealedTiled(s, i);
      SealedTiledFrame(s, t, i);
    }
  }

  lemma SyncStored(s: State)
    requires Inv(s) && Enabled(s, SyncActive)
    ensures Stored(Apply(s, SyncActive))
  {
    hide Tiled, SegmentName, ParseSegmentName, EncodeAll, HasBase;
    var t := Apply(s, SyncActive);
    ActiveIsAlone(s);
    assert Active(s).recs[..|Active(s).recs|] == Active(s).recs;
    assert EncodeAll(Active(s).recs) + [] == EncodeAll(Active(s).recs);
    forall i | 0 <= i < |t.segs| - 1 ensures SealedStored(t, i) {
      assert SealedStored(s, i);
    }
  }

  // ---- Rolling ----

  lemma CreateTiled(s: State)
    requires Tiled(s) && Enabled(s, CreateSegment)
    ensures Tiled(Apply(s, CreateSegment))
  {
    hide SealedTiled, EncodeAll, Framable, Version, SegmentName;
    var t := Apply(s, CreateSegment);
    var n := |s.segs|;
    assert t.hist[|s.hist|..] == [];
    forall i | 0 <= i < |t.segs| - 1 ensures SealedTiled(t, i) {
      if i < n - 1 {
        BasesFit(s);
        assert SealedTiled(s, i);
        SealedTiledFrame(s, t, i);
      } else {
        VersionOfStamp(s.hist, Active(s).base);
        RolledTiled(t, i);
      }
    }
  }

  lemma RolledTiled(t: State, i: nat)
    requires i + 1 < |t.segs| == |t.kept| && t.segs[i].base < End(t, i) <= |t.hist|
    requires t.kept[i] == t.segs[i].recs && Version(t.segs[i].recs, t.hist, t.segs[i].base, End(t, i))
    ensures SealedTiled(t, i)
  {
    hide Version;
  }

  lemma CreateStored(s: State)
    requires Inv(s) && Enabled(s, CreateSegment)
    ensures Stored(Apply(s, CreateSegment))
  {
    hide Tiled, SegmentName, ParseSegmentName, EncodeAll, HasBase, Entries, SealedStored, ActiveFiled, ActiveHolds, Unframed,
         Directory;
    var t := AfterCreate(s);
    CreateEntries(s);
    CreateActiveStored(s);
    OperationsAreSound(s.disk, SegmentName(|s.hist|), "");
    forall i | 0 <= i < |t.segs| - 1 ensures SealedStored(t, i) {
      CreateSealedStored(s, i);
    }
  }

  /** The new segment's file is empty and nobody else's. */
  lemma CreateActiveStored(s: State)
    requires Inv(s) && |s.kept| == |s.segs|
    requires var t := AfterCreate(s);
             Entries(t.disk.live, t.segs, |t.segs|) && Entries(t.disk.durable, t.segs, |t.segs| - 1)
    ensures var t := AfterCreate(s);
            ActiveFiled(t) && Unframed([]) && ActiveHolds(t, EncodeAll(Active(t).recs) + [])
    ensures s.up || s.segs == [] ==> s.tail == []
  {
    hide Tiled, SegmentName, ParseSegmentName, EncodeAll, HasBase, SealedStored;
    EmptyHasNoBytes();
    assert EncodeAll([]) + [] == [];
  }

  lemma CreateEntries(s: State)
    requires Inv(s) && Enabled(s, CreateSegment)
    ensures |s.kept| == |s.segs| && SegmentName(|s.hist|) !in s.disk.live
    ensures var t := AfterCreate(s);
            Entries(t.disk.live, t.segs, |t.segs|) && Entries(t.disk.durable, t.segs, |t.segs| - 1)
    ensures forall i :: 0 <= i < |s.segs| ==> SegmentName(s.segs[i].base) in s.disk.live && SegmentName(s.segs[i].base) in s.disk.durable
  {
    hide Tiled, SegmentName, ParseSegmentName, EncodeAll, SealedStored, ActiveFiled, ActiveHolds, Unframed;
    KeptPerSegment(s);
    var t := AfterCreate(s);
    var n, name := |s.segs|, SegmentName(|s.hist|);
    NewBaseIsNew(s);
    NamesAreDistinct();
    EntriesFrame(s.disk.durable, s.segs, t.segs, n);
    assert t.segs[n].base == |s.hist|;
    forall other | other in t.disk.live && ParseSegmentName(other).Some?
      ensures HasBase(t.segs, n + 1, ParseSegmentName(other).value)
    {
      if other != name {
        var i :| 0 <= i < n && s.segs[i].base == ParseSegmentName(other).value;
        assert t.segs[i].base == s.segs[i].base;
      }
    }
  }

  /** A roll starts a segment at an offset no segment starts at. */
  lemma NewBaseIsNew(s: State)
    requires Tiled(s) && (s.segs != [] ==> Active(s).recs != [])
    ensures !HasBase(s.segs, |s.segs|, |s.hist|) && |s.hist| < TWO64
  {
    hide SealedTiled, AllFramable;
    BasesFit(s);
    if s.segs != [] {
      StampedFrom(s.hist, Active(s).base);
      assert forall i :: 0 <= i < |s.segs| ==> s.segs[i].base <= Active(s).base < |s.hist|;
    }
  }

  lemma CreateSealedStored(s: State, i: nat)
    requires Inv(s) && Enabled(s, CreateSegment) && i < |s.segs|
    requires SegmentName(s.segs[i].base) in s.disk.live && SegmentName(s.segs[i].base) in s.disk.durable
    requires SegmentName(|s.hist|) !in s.disk.live && |s.kept| == |s.segs|
    ensures SealedStored(AfterCreate(s), i)
  {
    hide Tiled, SegmentName, ParseSegmentName, EncodeAll, HasBase, Stamp;
    if i < |s.segs| - 1 {
      assert SealedStored(s, i);
    } else {
      assert Active(s).recs[..s.synced] == Active(s).recs;
      assert EncodeAll(Active(s).recs) + [] == EncodeAll(Active(s).recs);
    }
  }

  lemma SyncDirectoryTiled(s: State)
    requires Tiled(s) && Enabled(s, SyncDirectory)
    ensures Tiled(Apply(s, SyncDirectory))
  {
    hide SealedTiled, Stamp, AllFramable;
    var t := Apply(s, SyncDirectory);
    forall i | 0 <= i < |t.segs| - 1 ensures SealedTiled(t, i) {
      BasesFit(s);
      assert SealedTiled(s, i);
      SealedTiledFrame(s, t, i);
    }
  }

  lemma SyncDirectoryStored(s: State)
    requires Inv(s) && Enabled(s, SyncDirectory)
    ensures Stored(Apply(s, SyncDirectory))
  {
    hide Tiled, SegmentName, ParseSegmentName, EncodeAll, HasBase;
    var t := Apply(s, SyncDirectory);
    ActiveIsAlone(s);
    forall i | 0 <= i < |t.segs| - 1 ensures SealedStored(t, i) {
      assert SealedStored(s, i);
    }
  }

  // ---- Swapping in a compacted segment ----

  lemma SwapTiled(s: State, i: nat, tmp: string)
    requires Tiled(s) && Enabled(s, Swap(i, tmp))
    ensures Tiled(Apply(s, Swap(i, tmp)))
  {
    hide SealedTiled, Stamp, AllFramable, Swappable, SegmentName, Compacted;
    var t := Apply(s, Swap(i, tmp));
    forall k | 0 <= k < |t.segs| - 1 ensures SealedTiled(t, k) {
      BasesFit(s);
      assert SealedTiled(s, k);
      SealedTiledFrame(s, t, k);
    }
  }

  lemma SwapStored(s: State, i: nat, tmp: string)
    requires Inv(s) && Enabled(s, Swap(i, tmp))
    ensures Stored(Apply(s, Swap(i, tmp)))
  {
    hide Tiled, SegmentName, ParseSegmentName, EncodeAll, HasBase, Compacted, Entries, SealedStored, Directory;
    var t := Apply(s, Swap(i, tmp));
    SwapEntries(s, i, tmp);
    SegmentNamesAreDistinct(s);
    ActiveIsAlone(s);
    OperationsAreSound(s.disk, tmp, SegmentName(s.segs[i].base));
    assert SegmentName(Active(t).base) in s.disk.live && SegmentName(Active(t).base) != tmp;
    forall k | 0 <= k < |t.segs| - 1 ensures SealedStored(t, k) {
      SwapSealedStored(s, i, tmp, k);
    }
  }

  lemma SwapSealedStored(s: State, i: nat, tmp: string, k: nat)
    requires Inv(s) && Enabled(s, Swap(i, tmp)) && k + 1 < |s.segs|
    ensures var t := Apply(s, Swap(i, tmp));
            && SegmentName(t.segs[k].base) in t.disk.live && SegmentName(t.segs[k].base) in t.disk.durable
            && SealedStored(t, k)
  {
    hide Tiled, SegmentName, ParseSegmentName, EncodeAll, HasBase, Compacted, ActiveFiled, Directory;
    SegmentNamesAreDistinct(s);
    assert SealedStored(s, k);
  }

  lemma SwapEntries(s: State, i: nat, tmp: string)
    requires Inv(s) && Enabled(s, Swap(i, tmp))
    ensures var t := Apply(s, Swap(i, tmp));
            Entries(t.disk.live, t.segs, |t.segs|) && Entries(t.disk.durable, t.segs, |t.segs|)
  {
    hide Tiled, SegmentName, ParseSegmentName, EncodeAll, Compacted, SealedStored;
    var t := Apply(s, Swap(i, tmp));
    SegmentNamesAreDistinct(s);
    EntriesFrame(s.disk.live, s.segs, t.segs, |s.segs|);
    EntriesFrame(s.disk.durable, s.segs, t.segs, |s.segs|);
    hide HasBase;
    assert forall name :: name in t.disk.live ==> name in s.disk.live || name == SegmentName(s.segs[i].base);
  }

  // ---- Everything else in the directory ----

  lemma OtherTiled(s: State, after: Disk)
    requires Tiled(s) && Enabled(s, Other(after))
    ensures Tiled(Apply(s, Other(after)))
  {
    hide SegmentsUntouched, Sound, Stamp, AllFramable, Version;
    var t := Apply(s, Other(after));
    forall i | 0 <= i < |t.segs| - 1 ensures SealedTiled(t, i) {
      assert SealedTiled(s, i);
    }
  }

  lemma OtherStored(s: State, after: Disk)
    requires Inv(s) && Enabled(s, Other(after))
    ensures Stored(Apply(s, Other(after)))
  {
    hide Tiled, SegmentName, ParseSegmentName, EncodeAll, HasBase, Sound, SealedStored, ActiveFiled, ActiveHolds, SegmentsUntouched;
    var t := Apply(s, Other(after));
    StoredEntries(s);
    OtherEntries(s, after);
    if s.segs != [] {
      OtherActiveFiled(s, after);
    }
    forall i | 0 <= i < |t.segs| - 1 ensures SealedStored(t, i) {
      OtherSealedStored(s, after, i);
    }
  }

  lemma StoredEntries(s: State)
    requires Filed(s)
    ensures Entries(s.disk.live, s.segs, |s.segs|) && Entries(s.disk.durable, s.segs, Durable(s))
  {
  }

  lemma OtherEntries(s: State, after: Disk)
    requires Inv(s) && Enabled(s, Other(after))
    ensures Entries(after.live, s.segs, |s.segs|) && Entries(after.durable, s.segs, Durable(s))
  {
    hide Tiled, SegmentName, ParseSegmentName, EncodeAll, HasBase, Sound, SealedStored, ActiveFiled;
    SegmentNamesAreDistinct(s);
    StoredEntries(s);
  }

  lemma OtherActiveFiled(s: State, after: Disk)
    requires Inv(s) && Enabled(s, Other(after)) && s.segs != []
    requires Entries(after.live, s.segs, |s.segs|) && Entries(after.durable, s.segs, Durable(s))
    ensures ActiveFiled(s.(disk := after)) && ActiveHolds(s.(disk := after), EncodeAll(Active(s).recs) + s.tail)
  {
    hide Tiled, SegmentName, ParseSegmentName, EncodeAll, HasBase, Directory, SealedStored;
    SegmentNamesAreDistinct(s);
    SegmentFilesExist(s);
  }

  lemma SegmentFilesExist(s: State)
    requires Stored(s)
    ensures forall i :: 0 <= i < |s.segs| ==> SegmentName(s.segs[i].base) in s.disk.live
    ensures forall name :: name in s.disk.live ==> s.disk.live[name] < |s.disk.inodes|
    ensures forall name :: name in s.disk.durable ==> s.disk.durable[name] < |s.disk.inodes|
  {
    hide SegmentName, ParseSegmentName, EncodeAll, HasBase, SealedStored, ActiveFiled;
  }

  lemma OtherSealedStored(s: State, after: Disk, i: nat)
    requires Inv(s) && Enabled(s, Other(after)) && i + 1 < |s.segs|
    ensures SegmentName(s.segs[i].base) in after.live && SegmentName(s.segs[i].base) in after.durable
    ensures SealedStored(s.(disk := after), i)
  {
    hide Tiled, SegmentName, ParseSegmentName, EncodeAll, HasBase, Directory, ActiveFiled;
    SegmentNamesAreDistinct(s);
    assert SealedStored(s, i);
  }

  // ---- Power cuts ----

  /** Whatever a cut leaves of a record file is some of its records, all the synced ones, and an unframed tail. */
  lemma WhatSurvives(base: nat, rs: seq<Rec>, tail: bytes, synced: nat, shape: Shape) returns (k: nat, t: bytes)
    requires Ascending(base, rs) && Unframed(tail) && synced <= |rs|
    ensures synced <= k <= |rs| && Unframed(t)
    ensures Survives(Inode(EncodeAll(rs) + tail, EncodeAll(rs[..synced])), shape) == EncodeAll(rs[..k]) + t
  {
    hide EncodeAll, Unframed, Ascending;
    var data, durable := EncodeAll(rs) + tail, EncodeAll(rs[..synced]);
    assert rs == rs[..synced] + rs[synced..];
    EncodeAllConcat(rs[..synced], rs[synced..]);
    assert data[..|durable|] == durable;
    var extra := |data| - |durable|;
    if extra > 0 && shape.Partial? {
      var n := |durable| + Kept(extra, shape.percent);
      assert durable + data[|durable|..n] == data[..n];
      k, t := CutWholeRecords(base, rs, tail, n);
    } else {
      k, t := synced, if extra > 0 && shape.Extended? then Zeros(extra) else [];
      UnframedZeros(|t|);
      assert t == Zeros(|t|);
      assert durable + [] == durable;
    }
  }

  /** Opening a file of some of the records finds them, and the history they stand for. */
  lemma RescannedIs(s: State, k: nat, t: bytes)
    requires Tiled(s) && HasActiveFile(s) && k <= |Active(s).recs| && Unframed(t)
    requires s.disk.inodes[ActiveNode(s)].data == EncodeAll(Active(s).recs[..k]) + t
    ensures Active(s).base + k <= |s.hist| && Rescanned(s) == Shortened(s, k, t)
  {
    hide EncodeAll, Unframed, AllFramable, Ascending, SegmentName, Stamp, Scan, EventsOf, SealedTiled;
    var base, rs := Active(s).base, Active(s).recs;
    StampedFrom(s.hist, base);
    StampAlone(base, s.hist[base..]);
    AscendingPrefix(base, rs, k);
    ScanExact(base, rs[..k], t);
    assert (EncodeAll(rs[..k]) + t)[|EncodeAll(rs[..k])|..] == t;
    HistoryOfPrefix(s.hist, base, k);
  }

  lemma HistoryOfPrefix(h: seq<Event>, base: nat, k: nat)
    requires base + k <= |h|
    ensures h[..base] + EventsOf(Stamp(base, h[base..])[..k]) == h[..base + k]
    ensures Stamp(base, h[..base + k][base..]) == Stamp(base, h[base..])[..k]
  {
    var rs := Stamp(base, h[base..]);
    var es := EventsOf(rs[..k]);
    assert forall i :: 0 <= i < k ==> es[i] == h[base + i];
    assert h[..base + k][base..] == h[base..][..k];
  }

  lemma AscendingPrefix(base: nat, rs: seq<Rec>, k: nat)
    requires Ascending(base, rs) && k <= |rs|
    ensures Ascending(base, rs[..k])
  {
  }

  /** Losing records past the synced ones keeps the rest of the tiling. */
  lemma ShortenedTiled(s: State, k: nat, t: bytes)
    requires Tiled(s) && s.segs != [] && s.named && s.synced <= k <= |Active(s).recs|
    ensures Active(s).base + k <= |s.hist| && Tiled(Shortened(s, k, t))
  {
    hide SealedTiled, Stamp, Framable;
    var short := Shortened(s, k, t);
    HistoryOfPrefix(s.hist, Active(s).base, k);
    BasesFit(s);
    forall i | 0 <= i < |s.segs| - 1 ensures SealedTiled(short, i) {
      assert SealedTiled(s, i);
      BaseBelowActive(s, i);
      SealedTiledFrame(s, short, i);
    }
  }

  lemma BaseBelowActive(s: State, i: nat)
    requires Tiled(s) && i + 1 < |s.segs|
    ensures End(s, i) <= Active(s).base
  {
    hide Tiled;
    BasesFit(s);
  }

  lemma ShortenedStored(s: State, k: nat, t: bytes)
    requires Filed(s) && s.segs != [] && s.named && s.synced <= k <= |Active(s).recs| && Unframed(t)
    requires ActiveHolds(s, EncodeAll(Active(s).recs[..k]) + t)
    requires Active(s).base + k <= |s.hist|
    ensures Stored(Shortened(s, k, t))
  {
    hide EncodeAll, Unframed, SegmentName, ParseSegmentName, HasBase, Sound;
    var short := Shortened(s, k, t);
    SameEntries(s, short);
    assert Active(s).recs[..k][..s.synced] == Active(s).recs[..s.synced];
    forall i | 0 <= i < |s.segs| - 1 ensures SealedStored(short, i) {
      assert SealedStored(s, i);
    }
  }

  lemma CutRawTiled(s: State, shape: Shape)
    requires Inv(s) && Durable(s) > 0
    ensures Tiled(CutRaw(s, shape))
  {
    hide SealedTiled, Stamp, AllFramable, Stored, PowerCut;
    var raw := CutRaw(s, shape);
    BasesFit(s);
    forall i | 0 <= i < |raw.segs| - 1 ensures SealedTiled(raw, i) {
      assert SealedTiled(s, i);
      SealedTiledFrame(s, raw, i);
    }
  }

  lemma CutRawFiled(s: State, shape: Shape)
    requires Inv(s) && Durable(s) > 0
    ensures Filed(CutRaw(s, shape))
  {
    hide EncodeAll, Unframed, SegmentName, ParseSegmentName, Tiled, HasBase, PowerCut;
    var raw := CutRaw(s, shape);
    CutSound(s, shape);
    SegmentNamesAreDistinct(s);
    EntriesFrame(s.disk.durable, s.segs, raw.segs, Durable(s));
    forall i | 0 <= i < |raw.segs| - 1 ensures SealedStored(raw, i) {
      CutSealedStored(s, shape, i);
    }
  }

  /** What a cut leaves of the segment that will be active: everything synced, and perhaps more. */
  lemma CutActive(s: State, shape: Shape) returns (k: nat, t: bytes)
    requires Inv(s) && Durable(s) > 0
    ensures var raw := CutRaw(s, shape);
            && raw.synced <= k <= |Active(raw).recs| && Unframed(t)
            && ActiveHolds(raw, EncodeAll(Active(raw).recs[..k]) + t)
  {
    hide EncodeAll, Unframed, SegmentName, Survives, Ascending, Tiled, Filed;
    KeptPerSegment(s);
    var raw := CutRaw(s, shape);
    var active := Active(raw);
    var tail := NextActiveFile(s, shape);
    assert s.disk.durable[SegmentName(active.base)] in s.disk.durable.Values;
    k, t := WhatSurvives(active.base, active.recs, tail, raw.synced, shape);
  }

  /** The file that will be active after a cut, as it is before it. */
  lemma NextActiveFile(s: State, shape: Shape) returns (tail: bytes)
    requires Inv(s) && Durable(s) > 0
    ensures var raw := CutRaw(s, shape);
            var active := Active(raw);
            && Unframed(tail) && Ascending(active.base, active.recs) && raw.synced <= |active.recs|
            && SegmentName(active.base) in s.disk.durable
            && Holds(s.disk, s.disk.durable[SegmentName(active.base)], EncodeAll(active.recs) + tail,
                     EncodeAll(active.recs[..raw.synced]))
  {
    hide EncodeAll, Unframed, AllFramable, SegmentName, ParseSegmentName, HasBase, Version, Stamp, PowerCut, Ascending;
    var active := Active(CutRaw(s, shape));
    BasesFit(s);
    StampedFrom(s.hist, active.base);
    StampAlone(active.base, s.hist[active.base..]);
    tail := if s.named then s.tail else [];
    if !s.named {
      assert SealedStored(s, |s.segs| - 2);
      UnframedZeros(0);
      assert Zeros(0) == [] && EncodeAll(active.recs) + [] == EncodeAll(active.recs);
      assert active.recs[..|active.recs|] == active.recs;
    }
  }

  /** A power cut of any shape, at any moment, keeps the invariant, and loses only unsynced records. */
  lemma CutKeeps(s: State, shape: Shape) returns (k: nat, t: bytes)
    requires Inv(s)
    ensures Inv(CutState(s, shape))
    ensures Durable(s) > 0 ==>
              var raw := CutRaw(s, shape);
              && raw.synced <= k <= |Active(raw).recs| && Active(raw).base + k <= |s.hist|
              && CutState(s, shape) == Shortened(raw, k, t)
  {
    hide EncodeAll, Unframed, Tiled, Filed, PowerCut, Shortened, Rescanned;
    k, t := 0, [];
    if Durable(s) == 0 {
      CutToNothing(s, shape);
    } else {
      KeptPerSegment(s);
      k, t := CutActive(s, shape);
      var raw := CutRaw(s, shape);
      CutRawTiled(s, shape);
      CutRawFiled(s, shape);
      RescannedIs(raw, k, t);
      ShortenedTiled(raw, k, t);
      ShortenedStored(raw, k, t);
    }
  }

  lemma KeptPerSegment(s: State)
    requires Filed(s)
    ensures |s.kept| == |s.segs|
  {
  }

  lemma CutToNothing(s: State, shape: Shape)
    requires Inv(s) && Durable(s) == 0
    ensures Inv(CutState(s, shape))
  {
    hide EncodeAll, SegmentName, ParseSegmentName, HasBase, PowerCut, Sound;
    CutSound(s, shape);
    EntriesFrame(s.disk.durable, s.segs, [], 0);
    UnframedZeros(0);
    assert Zeros(0) == [];
  }

  lemma CutSound(s: State, shape: Shape)
    requires Filed(s)
    ensures Sound(PowerCut(s.disk, shape))
    ensures PowerCut(s.disk, shape).live == s.disk.durable == PowerCut(s.disk, shape).durable
    ensures Entries(s.disk.durable, s.segs, Durable(s))
  {
    hide EncodeAll, Unframed, SegmentName, ParseSegmentName, SealedStored, ActiveFiled;
  }

  lemma CutSealedStored(s: State, shape: Shape, i: nat)
    requires Inv(s) && i + 1 < Durable(s)
    ensures var d := PowerCut(s.disk, shape);
            var name := SegmentName(s.segs[i].base);
            && name in d.live && name in d.durable
            && Holds(d, d.live[name], EncodeAll(s.kept[i]), EncodeAll(s.kept[i]))
  {
    hide EncodeAll, Unframed, SegmentName, ParseSegmentName, Tiled, HasBase, ActiveFiled;
    assert SealedStored(s, i);
    var node := s.disk.durable[SegmentName(s.segs[i].base)];
    assert node in s.disk.durable.Values;
  }

  // ---- Recovering ----

  lemma ReopenKeeps(s: State)
    requires Inv(s) && Enabled(s, Reopen)
    ensures Inv(Apply(s, Reopen))
  {
    hide Tiled, Stored, EncodeAll, SegmentName;
    ReopenTiled(s, AfterReopen(s));
    ReopenStored(s);
  }

  /** What was read off the file is what the state already said. */
  lemma ReopenTiled(s: State, t: State)
    requires Tiled(s) && t == s.(disk := t.disk, tail := [], up := true)
    ensures Tiled(t)
  {
    hide SegmentName, EncodeAll, Version, Stamp, AllFramable;
    forall i | 0 <= i < |t.segs| - 1 ensures SealedTiled(t, i) {
      assert SealedTiled(s, i);
    }
  }

  lemma ReopenStored(s: State)
    requires Inv(s) && s.named && HasActiveFile(s) && |EncodeAll(Active(s).recs)| <= |s.disk.inodes[ActiveNode(s)].data|
    ensures Stored(AfterReopen(s))
  {
    hide SegmentName, ParseSegmentName, EncodeAll, HasBase, Tiled;
    var t := AfterReopen(s);
    ActiveIsAlone(s);
    UnframedZeros(0);
    assert Zeros(0) == [];
    assert (EncodeAll(Active(s).recs) + s.tail)[..|EncodeAll(Active(s).recs)|] == EncodeAll(Active(s).recs) + [];
    forall i | 0 <= i < |t.segs| - 1 ensures SealedStored(t, i) {
      assert SealedStored(s, i);
    }
  }

  /** A write that stops part way leaves its whole records and a torn one. */
  lemma ShortWriteKeeps(s: State, events: seq<Event>, stored: nat) returns (k: nat, t: bytes)
    requires Inv(s) && Enabled(s, ShortWrite(events, stored))
    ensures Inv(Apply(s, ShortWrite(events, stored)))
    ensures WroteSome(s, events, Apply(s, ShortWrite(events, stored)), k, t)
  {
    hide EncodeAll, Unframed, Tiled, Filed, Rescanned, SegmentName, Stamp, AllFramable;
    var more := EncodeAll(Stamp(|s.hist|, events));
    var full := Apply(s, Write(events));
    var part := full.(disk := Appended(s.disk, ActiveNode(s), more[..stored]));
    WriteTiled(s, events);
    TiledIgnoresDisk(full, part.disk);
    AppendFiled(s, part, more[..stored]);
    k, t := ShortWriteBytes(s, events, stored);
    RescannedIs(part, k, t);
    BasesFit(s);
    RescanForgets(s.(disk := part.disk), part);
    ShortenedTiled(part, k, t);
    ShortenedStored(part, k, t);
  }

  /** `t` is the state of a finished write with only the first `k` active records. */
  ghost predicate WroteSome(s: State, events: seq<Event>, t: State, k: nat, tail: bytes) {
    && HasActiveFile(s)
    && var full := AfterWrite(s, events);
       && |Active(s).recs| <= k <= |Active(full).recs|
       && Active(full).base + k <= |full.hist|
       && t == Shortened(full, k, tail).(disk := t.disk)
  }

  lemma ShortWriteBytes(s: State, events: seq<Event>, stored: nat) returns (k: nat, t: bytes)
    requires Inv(s) && Enabled(s, ShortWrite(events, stored))
    ensures var full := Apply(s, Write(events));
            var part := full.(disk := Appended(s.disk, ActiveNode(s), EncodeAll(Stamp(|s.hist|, events))[..stored]));
            && |Active(s).recs| <= k <= |Active(full).recs| && Unframed(t)
            && ActiveHolds(part, EncodeAll(Active(full).recs[..k]) + t)
  {
    hide EncodeAll, Unframed, Filed, SegmentName, Stamp, AllFramable, SealedTiled;
    var full := Apply(s, Write(events));
    var recs, more := Active(s).recs, Stamp(|s.hist|, events);
    WriteTiled(s, events);
    StampedFrom(full.hist, Active(full).base);
    StampAlone(Active(full).base, full.hist[Active(full).base..]);
    EncodeAllConcat(recs, more);
    UnframedZeros(0);
    assert Zeros(0) == [];
    var n := |EncodeAll(recs)| + stored;
    k, t := CutWholeRecords(Active(s).base, recs + more, [], n);
    assert (recs + more)[..|recs|] == recs;
    assert (EncodeAll(recs) + []) + EncodeAll(more)[..stored] == (EncodeAll(recs + more) + [])[..n];
    assert (recs + more)[..s.synced] == recs[..s.synced];
  }

  lemma TiledIgnoresDisk(s: State, d: Disk)
    requires Tiled(s)
    ensures Tiled(s.(disk := d))
  {
    hide Version, Stamp, AllFramable;
    var t := s.(disk := d);
    forall i | 0 <= i < |t.segs| - 1 ensures SealedTiled(t, i) {
      assert SealedTiled(s, i);
    }
  }

  /** A rescan does not look at what the active segment was thought to hold. */
  lemma RescanForgets(s: State, t: State)
    requires s.segs != [] && t.segs != [] && t.segs == WithActive(s, Active(t).recs)
    requires Active(s).base <= |s.hist| <= |t.hist| && t.hist[..Active(s).base] == s.hist[..Active(s).base]
    requires t == s.(segs := t.segs, hist := t.hist)
    requires HasActiveFile(s)
    ensures HasActiveFile(t) && Rescanned(s) == Rescanned(t)
  {
    hide Scan, SegmentName, EncodeAll;
    var data := s.disk.inodes[ActiveNode(s)].data;
    ScanReencodes(data, Active(s).base);
    var rs := Scan(data, Active(s).base).records;
    assert WithActive(s, rs) == WithActive(t, rs);
  }

  // ---- All of them ----

  lemma InitHolds()
    ensures Inv(INIT)
  {
    UnframedZeros(0);
    assert Zeros(0) == [];
  }

  lemma KillKeeps(s: State)
    requires Inv(s) && Enabled(s, Kill)
    ensures Inv(Apply(s, Kill))
  {
    hide Tiled, Stored;
    DownTiled(s);
    DownStored(s);
  }

  lemma DownTiled(s: State)
    requires Tiled(s)
    ensures Tiled(s.(up := false))
  {
    hide Version, Stamp, AllFramable;
    var t := s.(up := false);
    forall i | 0 <= i < |t.segs| - 1 ensures SealedTiled(t, i) {
      assert SealedTiled(s, i);
    }
  }

  lemma DownStored(s: State)
    requires Stored(s)
    ensures Stored(s.(up := false))
  {
    hide EncodeAll, SegmentName, ParseSegmentName, HasBase, Unframed, Directory;
    var t := s.(up := false);
    forall i | 0 <= i < |t.segs| - 1 ensures SealedStored(t, i) {
      assert SealedStored(s, i);
    }
  }

  /** Every step keeps the invariant. */
  lemma StepKeeps(s: State, step: Step)
    requires Inv(s) && Enabled(s, step)
    ensures Inv(Apply(s, step))
  {
    hide Tiled, Stored, Apply;
    match step
    case Write(events) =>
      WriteTiled(s, events);
      WriteStored(s, events);
    case ShortWrite(events, stored) =>
      var _, _ := ShortWriteKeeps(s, events, stored);
    case SyncActive =>
      SyncTiled(s);
      SyncStored(s);
    case CreateSegment =>
      CreateTiled(s);
      CreateStored(s);
    case SyncDirectory =>
      SyncDirectoryTiled(s);
      SyncDirectoryStored(s);
    case Swap(i, tmp) =>
      SwapTiled(s, i, tmp);
      SwapStored(s, i, tmp);
    case Other(after) =>
      OtherTiled(s, after);
      OtherStored(s, after);
    case Kill =>
      KillKeeps(s);
    case Cut(shape) =>
      CutApplied(s, shape);
    case Reopen =>
      ReopenKeeps(s);
  }

  lemma CutApplied(s: State, shape: Shape)
    requires Inv(s) && Enabled(s, Cut(shape))
    ensures Inv(Apply(s, Cut(shape)))
  {
    hide Tiled, Stored;
    var _, _ := CutKeeps(s, shape);
  }
}
