/**
 * log/reader.go: cursors. A reader holds a segment and a byte position so that a scan
 * does not search, and must still deliver every surviving record exactly once, in order,
 * while the log is appended to, rolled and compacted underneath it.
 */
module Readers {
  import opened Wrappers
  import opened Bytes
  import opened Events
  import opened Records
  import opened Recovery
  import opened SparseIndex
  import opened Names
  import opened Disks
  import opened Segments
  import opened Compaction
  import opened Durability
  import opened Preservation
  import opened Runs
  import opened Tracking
  import opened Appending
  import opened Logs

  /** Some segment holds `r`. */
  ghost predicate Surviving(segs: seq<Seg>, r: Rec) {
    exists i :: 0 <= i < |segs| && r in segs[i].recs
  }

  /** `r` is the first surviving record at or after `off`. */
  ghost predicate LeastFrom(segs: seq<Seg>, off: nat, r: Rec) {
    && Surviving(segs, r) && r.offset >= off
    && forall q :: Surviving(segs, q) && q.offset >= off ==> r.offset <= q.offset
  }

  /** A cursor in segment `i`, at the byte where the first record at or after `next` begins or will begin. */
  ghost predicate Placed(seg: Segment, i: nat, pos: nat, next: nat, handles: map<nat, Segment>, segs: seq<Seg>) {
    && i < |segs| && segs[i].base == seg.base
    && seg.base in handles && handles[seg.base] == seg
    && seg.base <= next <= NextOf(seg.base, segs[i].recs)
    && pos == Start(segs[i].recs, Below(segs[i].recs, next))
  }

  /** Every segment of an undamaged log ends where the next begins. */
  lemma SegmentsEnd(s: State, i: nat)
    requires Inv(s) && i < |s.segs|
    ensures NextOf(s.segs[i].base, s.segs[i].recs) == End(s, i)
    ensures Ascending(s.segs[i].base, s.segs[i].recs)
  {
    hide Stored, AllFramable, Version, Stamp, Ascending;
    BasesFit(s);
    if i + 1 < |s.segs| {
      assert SealedTiled(s, i);
      VersionEnds(s.segs[i].recs, s.hist, s.segs[i].base, End(s, i));
      VersionAscends(s.segs[i].recs, s.hist, s.segs[i].base, End(s, i));
    } else {
      StampedFrom(s.hist, s.segs[i].base);
      ActiveAscends(s);
    }
  }

  lemma VersionAscends(rs: seq<Rec>, h: seq<Event>, lo: nat, hi: nat)
    requires Version(rs, h, lo, hi)
    ensures Ascending(lo, rs)
  {
  }

  lemma EarlierEnd(s: State, i: nat, j: nat)
    requires Inv(s) && i < j < |s.segs|
    ensures End(s, i) <= s.segs[j].base
  {
    hide Tiled, Stored;
    BasesFit(s);
  }

  /** Within a segment's stretch, its own first record at or after `off` is the log's. */
  lemma LeastInSegment(s: State, i: nat, off: nat)
    requires Inv(s) && i < |s.segs| && s.segs[i].base <= off < End(s, i)
    ensures var rs := s.segs[i].recs;
            var j := Below(rs, off);
            j < |rs| && LeastFrom(s.segs, off, rs[j])
  {
    hide Inv, Ascending;
    var rs := s.segs[i].recs;
    var j := Below(rs, off);
    SegmentsEnd(s, i);
    BelowSplits(s.segs[i].base, rs, off);
    assert rs[|rs| - 1].offset + 1 == End(s, i);
    assert rs[j] in s.segs[i].recs;
    forall q | Surviving(s.segs, q) && q.offset >= off ensures rs[j].offset <= q.offset {
      var k :| 0 <= k < |s.segs| && q in s.segs[k].recs;
      var m :| 0 <= m < |s.segs[k].recs| && q == s.segs[k].recs[m];
      SegmentsEnd(s, k);
      WithinSegment(s.segs[k].base, s.segs[k].recs, m);
      WithinSegment(s.segs[i].base, rs, j);
      if k < i {
        EarlierEnd(s, k, i);
      } else if k > i {
        EarlierEnd(s, i, k);
      } else {
        SameOrAfter(s.segs[i].base, rs, j, m);
      }
    }
  }

  lemma WithinSegment(base: nat, rs: seq<Rec>, m: nat)
    requires Ascending(base, rs) && m < |rs|
    ensures base <= rs[m].offset < NextOf(base, rs)
  {
  }

  class Reader {
    const log: Log
    var seg: Segment?
    var pos: nat
    var next: nat
    var generation: nat

    /** Which segment `seg` is. */
    ghost var at: nat

    /** A cursor that the log has not moved on from stands where its next record is. */
    ghost predicate Valid()
      reads this, log, log.fs, log.active, log.sealed.Values
    {
      && log.Valid() && next <= |log.st.hist| && generation <= log.generation
      && (seg != null && generation == log.generation ==> Placed(seg, at, pos, next, log.Handles(), log.st.segs))
    }

    constructor (log: Log, from: nat)
      requires log.Valid() && from <= |log.st.hist|
      ensures Valid() && this.log == log && next == from
    {
      this.log, seg, pos, next, generation, at := log, null, 0, from, log.generation, 0;
    }

    /** `Log.Reader`: a cursor at any offset the log holds, or at the one it is about to assign. */
    static method OpenAt(log: Log, from: nat) returns (r: Result<Reader, Error>)
      requires log.Valid()
      ensures r.Err? <==> from > |log.st.hist|
      ensures r.Err? ==> r.error == NotFound
      ensures r.Ok? ==> fresh(r.value) && r.value.Valid() && r.value.log == log && r.value.next == from
    {
      hide Log.Consistent;
      Ends(log);
      if from < log.bases[0] || from > log.active.next {
        return Err(NotFound);
      }
      var reader := new Reader(log, from);
      r := Ok(reader);
    }

    /** The segment that owns `off`, open. Whatever other cursors hold stays open too. */
    method Resolve(off: nat) returns (s: Result<Segment, Error>, ghost i: nat)
      requires Valid() && off < |log.st.hist|
      modifies log.fs, log`sealed, log`steps, log`st
      ensures Blames(old(log.fs.refused), log.fs.refused, ErrorOf(s))
      ensures Valid() && log.st == old(log.st) && Carried(log.bases, old(log.Handles()), log.bases, log.Handles())
      ensures s.Err? ==> s.error.Io?
      ensures s.Ok? ==>
                && i < |log.st.segs| && log.st.segs[i].base <= off < End(log.st, i)
                && s.value.Valid() && log.Handle(s.value, log.st.segs[i], log.st.disk.live)
                && s.value.base in log.Handles() && log.Handles()[s.value.base] == s.value
    {
      hide Log.Handle, Log.Cached, Log.Tracked, Start, Below, Segment.Valid;
      s, i := log.SegmentFor(off);
      OpenUnderItsBase(log);
      if s.Ok? {
        BaseOf(log, s.value, i);
      }
    }

    /** `seek`: the first record at or after `off`. The segment that owns `off` always has one, so the search ends there. */
    method SeekTo(off: nat) returns (err: Option<Error>)
      requires Valid() && off <= |log.st.hist|
      modifies this, log.fs, log`sealed, log`steps, log`st
      ensures Blames(old(log.fs.refused), log.fs.refused, err)
      ensures Valid() && log.st == old(log.st) && Carried(log.bases, old(log.Handles()), log.bases, log.Handles())
      ensures err.Some? ==> err.value.Io? && off < |log.st.hist| && next == old(next)
      ensures err.None? ==> generation == log.generation
      ensures err.None? && off == |log.st.hist| ==> seg == null && next == off
      ensures err.None? && off < |log.st.hist| ==>
                && seg != null && next < |log.st.hist| && LeastFrom(log.st.segs, off, Rec(next, log.st.hist[next]))
                && at < |log.st.segs| && next < NextOf(seg.base, log.st.segs[at].recs)
    {
      hide Log.Consistent, Log.Handle, LeastFrom, Placed, EncodeAll, Segment.Consistent, Ascending, Below;
      Ends(log);
      if off < log.active.next {
        var s;
        ghost var i;
        s, i := Resolve(off);
        if s.Err? {
          return Some(s.error);
        }
        var found, _ := s.value.LocateFrom(off);
        Located(log, s.value, i, off);
        if found.Err? {
          assert false;
        }
        seg, pos, next, generation, at := s.value, found.value.0, found.value.1, log.generation, i;
        return None;
      }
      seg, pos, next, generation := null, 0, off, log.generation;
      err := None;
    }

    /** `Seek`. */
    method Seek(off: nat) returns (err: Option<Error>)
      requires Valid()
      modifies this, log.fs, log`sealed, log`steps, log`st
      ensures Blames(old(log.fs.refused), log.fs.refused, err)
      ensures Valid() && log.st == old(log.st) && Carried(log.bases, old(log.Handles()), log.bases, log.Handles())
      ensures off > |log.st.hist| <==> err == Some(NotFound)
      ensures err.Some? ==> next == old(next) && (err.value == NotFound || err.value.Io?)
      ensures err.None? && off == |log.st.hist| ==> next == off
      ensures err.None? && off < |log.st.hist| ==>
                next < |log.st.hist| && LeastFrom(log.st.segs, off, Rec(next, log.st.hist[next]))
    {
      hide Log.Consistent, LeastFrom, Placed;
      Ends(log);
      if off < log.bases[0] || off > log.active.next {
        return Some(NotFound);
      }
      if off == log.active.next {
        seg, pos, next, generation := null, 0, off, log.generation;
        return None;
      }
      err := SeekTo(off);
    }

    /** `Next`: the first surviving record at or after the cursor, or the end of the log and nothing else. */
    method Next() returns (r: Result<Record, Error>)
      requires Valid()
      modifies this, log.fs, log`sealed, log`steps, log`st
      ensures Blames(old(log.fs.refused), log.fs.refused, ErrorOf(r))
      ensures Valid() && log.st == old(log.st) && Carried(log.bases, old(log.Handles()), log.bases, log.Handles())
      ensures r == Err(EndOfLog) <==> old(next) == |log.st.hist|
      ensures log.fs.refused == old(log.fs.refused) ==> (r.Ok? <==> old(next) < |log.st.hist|)
      ensures r.Err? ==> next == old(next) && (r.error == EndOfLog || r.error.Io?)
      ensures r.Ok? ==>
                && LeastFrom(log.st.segs, old(next), Rec(r.value.offset, r.value.event))
                && old(next) <= r.value.offset && next == r.value.offset + 1
                && next <= |log.st.hist| && r.value.event == log.st.hist[r.value.offset]
    {
      hide Log.Consistent, Log.Handle, LeastFrom, Placed, EncodeAll;
      Ends(log);
      if next >= log.active.next {
        return Err(EndOfLog);
      }
      Holding();
      if seg == null || next >= seg.next || generation != log.generation {
        var err := SeekTo(next);
        if err.Some? {
          return Err(err.value);
        }
      }
      if seg == null {
        assert false;
      }
      r := ReadHere();
      if next != old(next) {
        SameLeast(log.st.segs, old(next), Rec(next, log.st.hist[next]), Rec(r.value.offset, r.value.event));
      }
      NotBefore(log.st.segs, old(next), Rec(r.value.offset, r.value.event));
      pos, next := pos + r.value.len, r.value.offset + 1;
    }

    /** The record under a cursor that is not at the end of its segment. */
    method ReadHere() returns (r: Result<Record, Error>)
      requires Valid() && seg != null && generation == log.generation && next < NextOf(seg.base, log.st.segs[at].recs)
      ensures r.Ok? && LeastFrom(log.st.segs, next, Rec(r.value.offset, r.value.event))
      ensures r.value.offset < |log.st.hist| && r.value.event == log.st.hist[r.value.offset]
      ensures Placed(seg, at, pos + r.value.len, r.value.offset + 1, log.Handles(), log.st.segs)
    {
      hide Log.Consistent, Log.Handle, LeastFrom, EncodeAll, Ascending, ReadFrom, Below, Segment.Settled;
      Holding();
      Advances(log, seg, at, next);
      ghost var j := Below(seg.recs, next);
      ReadAtBoundary(seg.recs, j, seg.Data()[seg.size..], next);
      assert seg.Data() == EncodeAll(seg.recs) + seg.Data()[seg.size..];
      var read := seg.ReadRecordFrom(pos, next);
      r := Ok(read.value);
    }

    /** A current cursor's segment is open on what the log means by it. */
    lemma Holding()
      requires Valid()
      ensures seg != null && generation == log.generation ==>
                && seg.Valid() && seg.recs == log.st.segs[at].recs
                && seg.next == NextOf(seg.base, seg.recs) && seg.size == |EncodeAll(seg.recs)|
    {
      hide TracksFrom, Log.Cached, Start, Below, EncodeAll, Inv, SegmentName;
      if seg != null && generation == log.generation {
        OpenUnderItsBase(log);
        if at == |log.st.segs| - 1 {
          log.HandleIsValid(log.active, at);
        } else {
          log.CachedHandle(at);
          log.HandleIsValid(log.sealed[seg.base], at);
        }
      }
    }
  }

  /** Reading the record under a cursor leaves the cursor at the one after it. */
  lemma Advances(log: Log, seg: Segment, i: nat, next: nat)
    requires log.Valid() && i < |log.st.segs|
    requires log.st.segs[i].base <= next < NextOf(log.st.segs[i].base, log.st.segs[i].recs)
    ensures var rs := log.st.segs[i].recs;
            var j := Below(rs, next);
            && j < |rs| && Writable(rs[j]) && next <= rs[j].offset < |log.st.hist| && rs[j].event == log.st.hist[rs[j].offset]
            && LeastFrom(log.st.segs, next, rs[j])
            && rs[j].offset + 1 <= NextOf(log.st.segs[i].base, rs)
            && Start(rs, Below(rs, rs[j].offset + 1)) == Start(rs, j) + Len(rs[j])
  {
    hide Log.Consistent, LeastFrom, EncodeAll, Ascending, Inv;
    TrackedInvariant(log);
    var s := log.st;
    SegmentsEnd(s, i);
    Lands(s, i, next);
    LeastInSegment(s, i, next);
    var rs := s.segs[i].recs;
    var j := Below(rs, next);
    StartStep(rs, j);
    BelowNext(s.segs[i].base, rs, j);
  }

  lemma TrackedInvariant(log: Log)
    requires log.Valid()
    ensures Inv(log.st)
  {
    hide Inv, TracksFrom, Log.Cached, Log.Handle;
    log.Knows();
  }

  lemma BelowNext(base: nat, rs: seq<Rec>, j: nat)
    requires Ascending(base, rs) && j < |rs|
    ensures Below(rs, rs[j].offset + 1) == j + 1 && Writable(rs[j])
  {
    hide Below, Writable;
    BelowIs(rs, rs[j].offset + 1, j + 1);
  }

  lemma NotBefore(segs: seq<Seg>, off: nat, r: Rec)
    requires LeastFrom(segs, off, r)
    ensures off <= r.offset
  {
  }

  lemma SameLeast(segs: seq<Seg>, off: nat, a: Rec, b: Rec)
    requires LeastFrom(segs, off, a) && LeastFrom(segs, a.offset, b)
    ensures a.offset == b.offset
  {
  }

  lemma OpenUnderItsBase(log: Log)
    requires log.Consistent()
    ensures log.active.base == Active(log.st).base && log.bases == BasesOf(log.st.segs)
    ensures forall i :: 0 <= i < |log.st.segs| - 1 ==> log.st.segs[i].base != log.active.base
    ensures forall i :: 0 <= i < |log.st.segs| ==> log.st.segs[i].base in log.bases
  {
    hide Log.Cached, TracksFrom, Segment.Settled;
    log.BasesAscendNow();
    forall i | 0 <= i < |log.st.segs| ensures log.st.segs[i].base in log.bases {
      assert log.bases[i] == log.st.segs[i].base;
    }
  }

  lemma BaseOf(log: Log, seg: Segment, i: nat)
    requires i < |log.st.segs| && log.Handle(seg, log.st.segs[i], log.st.disk.live)
    ensures seg.base == log.st.segs[i].base
  {
    hide Segment.Settled;
  }

  lemma Ends(log: Log)
    requires log.Valid()
    ensures log.active.next == |log.st.hist| && |log.bases| > 0 && log.bases[0] == 0
  {
    hide Log.Handle, Log.Cached, TracksFrom, Inv;
    log.ActiveIsValid();
    log.FirstIsZero();
  }

  /** Where a lookup in the segment that owns `off` lands. */
  lemma Located(log: Log, seg: Segment, i: nat, off: nat)
    requires log.Valid() && i < |log.st.segs| && log.st.segs[i].base <= off < End(log.st, i)
    requires log.Handle(seg, log.st.segs[i], log.st.disk.live)
    requires seg.base in log.Handles() && log.Handles()[seg.base] == seg
    ensures off < seg.next && seg.base <= off && seg.recs == log.st.segs[i].recs
    ensures var j := Below(seg.recs, off);
            && j < |seg.recs| && off <= seg.recs[j].offset < |log.st.hist|
            && seg.recs[j].offset < NextOf(seg.base, log.st.segs[i].recs)
            && seg.recs[j].event == log.st.hist[seg.recs[j].offset]
            && LeastFrom(log.st.segs, off, seg.recs[j])
            && Placed(seg, i, Start(seg.recs, j), seg.recs[j].offset, log.Handles(), log.st.segs)
  {
    hide TracksFrom, Inv, EncodeAll, Log.Cached, SegmentName, LeastFrom, Below, IndexOf;
    log.Knows();
    SegmentsEnd(log.st, i);
    LeastInSegment(log.st, i, off);
    Lands(log.st, i, off);
  }

  lemma Lands(s: State, i: nat, off: nat)
    requires Inv(s) && i < |s.segs| && s.segs[i].base <= off < End(s, i)
    ensures var rs := s.segs[i].recs;
            var j := Below(rs, off);
            && j < |rs| && off <= rs[j].offset < |s.hist| && rs[j].offset < NextOf(s.segs[i].base, rs)
            && rs[j].event == s.hist[rs[j].offset] && Below(rs, rs[j].offset) == j
  {
    hide Inv, Ascending, LeastFrom;
    var rs := s.segs[i].recs;
    var j := Below(rs, off);
    SegmentsEnd(s, i);
    LeastInSegment(s, i, off);
    BelowSplits(s.segs[i].base, rs, off);
    BelowIs(rs, rs[j].offset, j);
    WithinSegment(s.segs[i].base, rs, j);
    OnlyHistory(s, i, j);
  }

  lemma OnlyHistory(s: State, i: nat, j: nat)
    requires Inv(s) && i < |s.segs| && j < |s.segs[i].recs|
    ensures s.segs[i].recs[j].offset < |s.hist| && s.segs[i].recs[j].event == s.hist[s.segs[i].recs[j].offset]
  {
    hide Inv;
    RecordsAreHistory(s, i, s.segs[i].recs[j]);
  }

  // ---- The log moving underneath a cursor ----

  /** Appending, rolls included, leaves every cursor where its next record is or will be. */
  lemma AppendKeepsPlace(seg: Segment, i: nat, pos: nat, next: nat, bases: seq<nat>, handles: map<nat, Segment>, segs: seq<Seg>,
                         after: seq<nat>, now: map<nat, Segment>, more: seq<Seg>)
    requires Placed(seg, i, pos, next, handles, segs) && Carried(bases, handles, after, now) && Extends(segs, more)
    requires seg.base in bases && Ascending(seg.base, segs[i].recs)
    ensures Placed(seg, i, pos, next, now, more)
  {
    hide Extends, Ascending, EncodeAll;
    ExtendsAt(segs, more, i);
    var rs, grown := segs[i].recs, more[i].recs;
    BelowSplits(seg.base, rs, next);
    var j := Below(rs, next);
    BelowIs(grown, next, j);
    assert grown[..j] == rs[..j];
  }

  lemma ExtendsAt(segs: seq<Seg>, more: seq<Seg>, i: nat)
    requires Extends(segs, more) && i < |segs|
    ensures i < |more| && more[i].base == segs[i].base && segs[i].recs <= more[i].recs
    ensures forall j :: |segs[i].recs| <= j < |more[i].recs| ==> more[i].recs[j].offset >= NextOf(segs[i].base, segs[i].recs)
  {
  }

  /** Every record a segment holds is what its offset was assigned. */
  ghost predicate Faithful(segs: seq<Seg>, hist: seq<Event>) {
    forall q :: Surviving(segs, q) ==> q.offset < |hist| && q.event == hist[q.offset]
  }

  lemma OnlyHistorySurvives(s: State)
    requires Inv(s)
    ensures Faithful(s.segs, s.hist)
  {
    hide Inv;
    forall q | Surviving(s.segs, q) ensures q.offset < |s.hist| && q.event == s.hist[q.offset] {
      var i :| 0 <= i < |s.segs| && q in s.segs[i].recs;
      var j :| 0 <= j < |s.segs[i].recs| && q == s.segs[i].recs[j];
      OnlyHistory(s, i, j);
    }
  }

  /** Everything that survives in `[start, next)` is in `out`, in order, and nothing else is but what once was there. */
  ghost predicate Delivered(start: nat, next: nat, segs: seq<Seg>, hist: seq<Event>, out: seq<Rec>) {
    && start <= next
    && (forall k :: 0 <= k < |out| ==> start <= out[k].offset < next && out[k].offset < |hist| && out[k].event == hist[out[k].offset])
    && (forall k, l :: 0 <= k < l < |out| ==> out[k].offset < out[l].offset)
    && (forall q :: Surviving(segs, q) && start <= q.offset < next ==> q in out)
  }

  lemma DeliverOne(start: nat, next: nat, segs: seq<Seg>, hist: seq<Event>, out: seq<Rec>, r: Rec)
    requires Delivered(start, next, segs, hist, out) && LeastFrom(segs, next, r) && Faithful(segs, hist)
    ensures Delivered(start, r.offset + 1, segs, hist, out + [r])
  {
    hide Surviving;
    var more := out + [r];
    forall q | Surviving(segs, q) && start <= q.offset < r.offset + 1 ensures q in more {
      if q.offset >= next {
        assert q == r == more[|out|];
      } else {
        var k :| 0 <= k < |out| && out[k] == q;
        assert more[k] == q;
      }
    }
  }

  /** What the log becomes changes nothing about what has been delivered, if offsets are not used twice. */
  lemma DeliveredStill(start: nat, next: nat, segs: seq<Seg>, hist: seq<Event>, out: seq<Rec>, now: seq<Seg>, longer: seq<Event>)
    requires Delivered(start, next, segs, hist, out) && hist <= longer
    requires forall q :: Surviving(now, q) ==> Surviving(segs, q) || q.offset >= next
    ensures Delivered(start, next, now, longer, out)
  {
    hide Surviving;
  }

  lemma ExtendedSurvivors(segs: seq<Seg>, more: seq<Seg>, q: Rec)
    requires Extends(segs, more) && Surviving(more, q)
    ensures Surviving(segs, q) || q.offset >= Appending.Next(segs)
  {
    var i :| 0 <= i < |more| && q in more[i].recs;
    if i < |segs| {
      ExtendsAt(segs, more, i);
      var j :| 0 <= j < |more[i].recs| && q == more[i].recs[j];
      if j < |segs[i].recs| {
        assert segs[i].recs[j] == q;
      }
    }
  }

  lemma CompactedSurvivors(before: State, after: State, i: nat, q: Rec)
    requires CompactedAt(before, after, i) && Surviving(after.segs, q)
    ensures Surviving(before.segs, q)
  {
    hide Compacted;
    var k :| 0 <= k < |after.segs| && q in after.segs[k].recs;
    if k == i {
      CompactedComesFrom(before.segs[i].recs, q);
    }
    assert q in before.segs[k].recs;
  }

  // ---- Any interleaving ----

  datatype Op = Append(events: seq<Event>, now: int) | Sync(now: int) | Compact(base: nat) | Next

  /** An append beside a cursor. */
  method AppendBeside(r: Reader, events: seq<Event>, now: int, ghost start: nat, ghost out: seq<Rec>) returns (ok: bool)
    requires r.Valid() && |r.log.st.hist| + |events| < TWO64
    requires Delivered(start, r.next, r.log.st.segs, r.log.st.hist, out)
    modifies r.log, r.log.fs, r.log.active
    ensures Blames(old(r.log.fs.refused), r.log.fs.refused, Refusing(ok))
    ensures ok ==> r.Valid() && Delivered(start, r.next, r.log.st.segs, r.log.st.hist, out)
    ensures r.log.active == old(r.log.active) || fresh(r.log.active)
  {
    hide Log.Consistent, Log.Tracked, Delivered, Placed, AppendEach, Extends, Accepted, Surviving, Carried;
    var log := r.log;
    ghost var before := log.st;
    ghost var bases, handles := log.bases, log.Handles();
    OpenUnderItsBase(log);
    TrackedInvariant(log);
    Ends(log);
    var _, err := log.Append(events, now);
    ok := !(err.Some? && err.value.Io?);
    if ok {
      AppendExtends(before.segs, events, log.cfg.segment.Limit());
      if r.seg != null && r.generation == log.generation {
        StaysPlaced(r.seg, r.at, r.pos, r.next, before, bases, handles, log.bases, log.Handles(), log.st.segs);
      }
      NextIsTail(before);
      forall q | Surviving(log.st.segs, q) ensures Surviving(before.segs, q) || q.offset >= r.next {
        ExtendedSurvivors(before.segs, log.st.segs, q);
      }
      DeliveredStill(start, r.next, before.segs, before.hist, out, log.st.segs, log.st.hist);
    }
  }

  lemma StaysPlaced(seg: Segment, i: nat, pos: nat, next: nat, s: State, bases: seq<nat>, handles: map<nat, Segment>,
                    after: seq<nat>, now: map<nat, Segment>, more: seq<Seg>)
    requires Inv(s) && bases == BasesOf(s.segs)
    requires Placed(seg, i, pos, next, handles, s.segs) && Carried(bases, handles, after, now) && Extends(s.segs, more)
    ensures Placed(seg, i, pos, next, now, more)
  {
    hide Inv, Extends, Carried, Ascending, Start, Below;
    SegmentsEnd(s, i);
    assert bases[i] == seg.base;
    AppendKeepsPlace(seg, i, pos, next, bases, handles, s.segs, after, now, more);
  }

  lemma NextIsTail(s: State)
    requires Inv(s) && s.segs != []
    ensures Appending.Next(s.segs) == |s.hist|
  {
    hide Inv, Ascending;
    SegmentsEnd(s, |s.segs| - 1);
  }

  /** A compaction beside a cursor. */
  method CompactBeside(r: Reader, base: nat, ghost start: nat, ghost out: seq<Rec>) returns (ok: bool)
    requires r.Valid() && (base in r.log.bases || base >= r.log.active.base)
    requires Delivered(start, r.next, r.log.st.segs, r.log.st.hist, out)
    modifies r.log.fs, r.log`sealed, r.log`generation, r.log`origin, r.log`steps, r.log`st
    ensures Blames(old(r.log.fs.refused), r.log.fs.refused, Refusing(ok))
    ensures ok ==> r.Valid() && Delivered(start, r.next, r.log.st.segs, r.log.st.hist, out)
  {
    hide Log.Consistent, Log.Tracked, Delivered, Start, Below, Surviving, Accounts;
    var log := r.log;
    ghost var before := log.st;
    OpenUnderItsBase(log);
    var c;
    ghost var i;
    c, i := log.Compact(base);
    ok := !(c.Err? && c.error.Io?);
    if !ok {
      return;
    }
    forall q | Surviving(log.st.segs, q) ensures Surviving(before.segs, q) || q.offset >= r.next {
      if c.Ok? {
        CompactedSurvivors(before, log.st, i, q);
      }
    }
    DeliveredStill(start, r.next, before.segs, before.hist, out, log.st.segs, log.st.hist);
  }

  method NextBeside(r: Reader, ghost start: nat, out: seq<Rec>) returns (more: seq<Rec>)
    requires r.Valid() && Delivered(start, r.next, r.log.st.segs, r.log.st.hist, out)
    modifies r, r.log.fs, r.log`sealed, r.log`steps, r.log`st
    ensures old(r.log.fs.refused) <= r.log.fs.refused
    ensures r.Valid() && r.log.st == old(r.log.st)
    ensures Delivered(start, r.next, r.log.st.segs, r.log.st.hist, more)
    ensures r.log.fs.refused == old(r.log.fs.refused) ==> r.next > old(r.next) || r.next == |r.log.st.hist|
  {
    hide Log.Valid, Delivered, Placed, Surviving, LeastFrom;
    more := out;
    ghost var next := r.next;
    TrackedInvariant(r.log);
    OnlyHistorySurvives(r.log.st);
    var got := r.Next();
    if got.Ok? {
      ghost var rec := Rec(got.value.offset, got.value.event);
      DeliverOne(start, next, r.log.st.segs, r.log.st.hist, out, rec);
      more := out + [Rec(got.value.offset, got.value.event)];
    }
  }

  /** How many reads there are at the end, with nothing in between. */
  function TrailingReads(ops: seq<Op>): nat {
    if ops == [] || !ops[|ops| - 1].Next? then 0 else 1 + TrailingReads(ops[..|ops| - 1])
  }

  /**
   * Any sequence of appends, syncs, compactions and reads, on one log, until the disk
   * refuses one of them: the cursor has delivered, in strictly ascending order and each
   * exactly once, every record between where it began and where it stands that still
   * survives, and everything it delivered is what the offset was assigned. And when the disk
   * refuses nothing, enough reads in a row take the cursor to the end of the log.
   */
  method Interleave(r: Reader, ops: seq<Op>) returns (out: seq<Rec>, ok: bool)
    requires r.Valid()
    modifies r, r.log, r.log.fs, r.log.active
    ensures Blames(old(r.log.fs.refused), r.log.fs.refused, Refusing(ok))
    ensures forall k, l :: 0 <= k < l < |out| ==> out[k].offset < out[l].offset
    ensures ok ==> r.Valid() && Delivered(old(r.next), r.next, r.log.st.segs, r.log.st.hist, out)
    ensures r.log.fs.refused == old(r.log.fs.refused) ==>
              ok && (TrailingReads(ops) >= |r.log.st.hist| ==> r.next == |r.log.st.hist|)
  {
    hide Log.Valid, Placed, Surviving, Delivered;
    out, ok := [], true;
    ghost var start := r.next;
    NothingDelivered(start, r.log.st.segs, r.log.st.hist);
    for n := 0 to |ops|
      invariant r.log.fs.refused == old(r.log.fs.refused) ==> r.next >= TrailingReads(ops[..n]) || r.next == |r.log.st.hist|
      invariant r.Valid() && (r.log.active == old(r.log.active) || fresh(r.log.active))
      invariant Delivered(start, r.next, r.log.st.segs, r.log.st.hist, out) && old(r.log.fs.refused) <= r.log.fs.refused
    {
      InOrder(start, r.next, r.log.st.segs, r.log.st.hist, out);
      assert ops[..n + 1][..n] == ops[..n];
      match ops[n] {
        case Append(events, now) =>
          Ends(r.log);
          if r.log.active.next + |events| < TWO64 {
            ok := AppendBeside(r, events, now, start, out);
          }
        case Sync(now) =>
          var err := r.log.Sync(now);
          ok := err.None?;
        case Compact(base) =>
          if base in r.log.bases || base >= r.log.active.base {
            ok := CompactBeside(r, base, start, out);
          }
        case Next =>
          out := NextBeside(r, start, out);
      }
      if !ok {
        return;
      }
    }
    assert ops[..|ops|] == ops;
    InOrder(start, r.next, r.log.st.segs, r.log.st.hist, out);
  }

  lemma NothingDelivered(start: nat, segs: seq<Seg>, hist: seq<Event>)
    ensures Delivered(start, start, segs, hist, [])
  {
  }

  lemma InOrder(start: nat, next: nat, segs: seq<Seg>, hist: seq<Event>, out: seq<Rec>)
    requires Delivered(start, next, segs, hist, out)
    ensures forall k, l :: 0 <= k < l < |out| ==> out[k].offset < out[l].offset
  {
    hide Surviving;
  }
}
