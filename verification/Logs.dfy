/**
 * log/log.go: the segments of one directory, one of them active.
 */
module Logs {
  import opened Wrappers
  import opened Bytes
  import opened Events
  import opened Records
  import opened Recovery
  import opened SparseIndex
  import opened Rising
  import opened Names
  import opened Disks
  import opened Owners
  import opened Segments
  import opened Compaction
  import opened Durability
  import opened Preservation
  import opened Runs
  import opened Swaps
  import opened Tracking
  import opened Appending

  datatype Mode = Batch | EveryCall | Never

  const DEFAULT_SYNC_RECORDS: nat := 1024

  /** `clocked` is whether a clock was injected; its reading arrives with each call. */
  datatype Config = Config(segment: Options, mode: Mode, syncRecords: int, syncInterval: int, clocked: bool) {
    function WithDefaults(): Config {
      if syncRecords <= 0 && syncInterval <= 0 then this.(syncRecords := DEFAULT_SYNC_RECORDS) else this
    }
  }

  /** The durability mode asks for a sync, so many appends and so long after the last. */
  ghost predicate SyncIsDue(cfg: Config, appended: nat, elapsed: int) {
    || cfg.mode == EveryCall
    || (cfg.mode == Batch && 0 < cfg.syncRecords <= appended)
    || (cfg.mode == Batch && 0 < cfg.syncInterval <= elapsed)
  }

  /** How many bytes a segment is to hold: what the caller said, if that is anything, and else 64 MiB. */
  ghost function SegmentBytes(cfg: Config): nat {
    if cfg.segment.maxBytes > 0 then cfg.segment.maxBytes else 67_108_864
  }

  /** `cfg` is what the caller asked for, with 1024 records a sync if it said nothing of when to sync. */
  ghost predicate AskedFor(config: Config, cfg: Config) {
    && cfg.mode == config.mode && cfg.segment == config.segment
    && cfg.syncInterval == config.syncInterval && cfg.clocked == config.clocked
    && cfg.syncRecords == if config.syncRecords <= 0 && config.syncInterval <= 0 then 1024 else config.syncRecords
  }

  function BasesOf(segs: seq<Seg>): (bs: seq<nat>)
    ensures |bs| == |segs| && forall i :: 0 <= i < |bs| ==> bs[i] == segs[i].base
  {
    seq(|segs|, i requires 0 <= i < |segs| => segs[i].base)
  }

  /** `n` consecutive offsets. */
  function Range(first: nat, n: nat): (r: seq<nat>)
    ensures |r| == n && forall i :: 0 <= i < n ==> r[i] == first + i
  {
    seq(n, i => first + i)
  }

  lemma RangeGrows(first: nat, d: nat, n: nat)
    ensures Range(first, 0) == [] && Range(first, d) + Range(first + d, n) == Range(first, d + n)
  {
  }

  class Log {
    const fs: FS
    const cfg: Config

    var bases: seq<nat>
    var sealed: map<nat, Segment>
    var active: Segment
    var sinceSync: nat
    var lastSync: int
    var generation: nat

    /** The machine's run so far, and where it stands. */
    ghost var steps: seq<Step>
    ghost var st: State

    /** Where the run stood when somebody last looked: every operation since has been the log's own. */
    ghost var origin: seq<Step>

    /** Records found unsynced when the log was opened, and not synced since. */
    ghost var inherited: nat

    constructor (fs: FS, cfg: Config, bases: seq<nat>, active: Segment, lastSync: int,
                 ghost origin: seq<Step>, ghost steps: seq<Step>, ghost st: State, ghost inherited: nat)
      requires TracksFrom(origin, fs.past, steps, st) && st.disk == fs.View() && st.up && st.named && st.segs != []
      requires bases == BasesOf(st.segs) && st.synced + inherited == |active.recs|
      requires active.fs == fs && active.Settled() && !active.sealed && active.base == Active(st).base && active.recs == Active(st).recs
      requires active.maxBytes == cfg.segment.Limit() && active.interval == cfg.segment.Interval()
      requires SegmentName(active.base) in st.disk.live && active.node == st.disk.live[SegmentName(active.base)]
      ensures Consistent() && Valid() && this.fs == fs && this.cfg == cfg
      ensures sinceSync == 0 && generation == 0 && this.st == st && this.inherited == inherited
      ensures this.lastSync == lastSync && this.origin == origin && this.steps == steps
    {
      hide TracksFrom, EncodeAll, SegmentName, Segment.Settled;
      this.fs, this.cfg, this.bases, this.active := fs, cfg, bases, active;
      sealed, sinceSync, this.lastSync, generation := map[], 0, lastSync, 0;
      this.origin, this.steps, this.st, this.inherited := origin, steps, st, inherited;
    }

    ghost predicate Tracked()
      reads this`origin, this`steps, this`st, fs
    {
      TracksFrom(origin, fs.past, steps, st) && st.disk == fs.View()
    }

    /** `s` is an open handle on segment `seg`, through the directory `live`. */
    ghost predicate Handle(s: Segment, seg: Seg, live: map<string, nat>)
      reads s
    {
      && s.fs == fs && s.Settled() && s.base == seg.base && s.recs == seg.recs
      && s.maxBytes == cfg.segment.Limit() && s.interval == cfg.segment.Interval()
      && SegmentName(seg.base) in live && s.node == live[SegmentName(seg.base)]
    }

    /** Every sealed segment that has been opened is open on what the directory names. */
    ghost predicate Cached(cache: map<nat, Segment>, segs: seq<Seg>, live: map<string, nat>)
      reads cache.Values
    {
      forall i :: 0 <= i < |segs| && segs[i].base in cache ==>
        Handle(cache[segs[i].base], segs[i], live) && cache[segs[i].base].sealed
    }

    /** The fields describe the segments of a running machine. */
    ghost predicate Consistent()
      reads this`bases, this`sealed, this`active, this`origin, this`steps, this`st, fs, active, sealed.Values
    {
      && Tracked() && st.up && st.named && st.segs != []
      && bases == BasesOf(st.segs)
      && Handle(active, Active(st), st.disk.live) && active !in sealed.Values
      && Cached(sealed, st.segs[..|st.segs| - 1], st.disk.live)
    }

    /** Also, the active segment takes appends, and the counters account for every unsynced record. */
    ghost predicate Valid()
      reads this, fs, active, sealed.Values
    {
      && Consistent()
      && !active.sealed
      && st.synced + sinceSync + inherited == |active.recs|
    }

    /**
     * A power cut now, of any shape, takes back no more than the records counted since the
     * last sync, unless the log was opened on unsynced records and has not synced since.
     */
    lemma CutTakesNoMoreThanCounted(shape: Shape)
      requires Valid()
      ensures |st.kept| == |st.segs| && CutState(st, shape).hist <= st.hist
      ensures |st.hist| - |CutState(st, shape).hist| <= sinceSync + inherited == AtRisk()
    {
      hide TracksFrom, Inv, Cached, CutState, SegmentName;
      Knows();
      Basics(st);
      CutLosesOnlyUnsynced(st, shape);
    }

    /** Every segment that is open, by base. */
    ghost function Handles(): map<nat, Segment>
      reads this`sealed, this`active
    {
      sealed[active.base := active]
    }

    /** How many records a power cut could take back. */
    ghost function AtRisk(): int
      reads this, active
    {
      |active.recs| - st.synced
    }

    /** The operation just performed was this step. */
    ghost method Advance(step: Step)
      requires |fs.past| > 0 && fs.past[|fs.past| - 1] == fs.View()
      requires TracksFrom(origin, fs.past[..|fs.past| - 1], steps, st)
      requires Enabled(st, step) && Apply(st, step).disk == fs.View()
      requires !step.Cut? && (step.Other? ==> Minds(st.disk, fs.View(), TheLog))
      modifies this`steps, this`st
      ensures Tracked() && Inv(st) && st == old(Apply(st, step)) && steps == old(steps) + [step]
    {
      hide Enabled, Apply, Inv, TracksFrom;
      TracksFromStep(origin, fs.past[..|fs.past| - 1], steps, st, step, fs.View());
      assert fs.past == fs.past[..|fs.past| - 1] + [fs.View()];
      steps, st := steps + [step], Apply(st, step);
    }

    lemma Knows()
      requires Tracked()
      ensures Inv(st) && fs.Valid()
    {
      hide Tiled;
      TracksFromInvariant(origin, fs.past, steps, st);
    }

    /** A handle on a segment of an undamaged log is a valid segment. */
    lemma HandleIsValid(s: Segment, i: nat)
      requires Tracked() && st.up && i < |st.segs| && Handle(s, st.segs[i], st.disk.live)
      ensures s.Valid()
    {
      hide EncodeAll, IndexOf, SegmentName, ParseSegmentName, HasBase, Stamp, AllFramable, Covers, Unframed, TracksFrom;
      TracksFromInvariant(origin, fs.past, steps, st);
      BasesFit(st);
      if i + 1 < |st.segs| {
        assert SealedTiled(st, i) && SealedStored(st, i);
      } else {
        StampedFrom(st.hist, st.segs[i].base);
        StampAlone(st.segs[i].base, st.hist[st.segs[i].base..]);
        assert EncodeAll(st.segs[i].recs) + [] == EncodeAll(st.segs[i].recs);
      }
    }

    lemma ActiveIsValid()
      requires Consistent()
      ensures active.Valid() && HasActiveFile(st) && active.node == ActiveNode(st) && Inv(st)
      ensures active.next == |st.hist| == Appending.Next(st.segs)
    {
      hide EncodeAll, IndexOf, SegmentName, AllFramable, TracksFrom, SealedTiled;
      Knows();
      HandleIsValid(active, |st.segs| - 1);
      StampedFrom(st.hist, active.base);
    }

    /** The sync both `Sync` and `roll` begin with. */
    method SyncSegment() returns (ok: bool)
      requires Consistent()
      modifies fs, this`steps, this`st
      ensures Blames(old(fs.refused), fs.refused, Refusing(ok))
      ensures ok ==> Consistent() && st.segs == old(st.segs) && st.hist == old(st.hist)
      ensures ok ==> st.acked == |st.hist| && st.synced == |active.recs|
      ensures !ok ==> Tracked() && !st.up
    {
      hide TracksFrom, EncodeAll, Segment.Settled, SegmentName, Inv, Directory, Enabled, Apply, Cached;
      ActiveIsValid();
      MaySync(st);
      MayKill(st);
      ok := active.Sync();
      if !ok {
        Advance(Kill);
        return;
      }
      Advance(SyncActive);
    }

    /** `Sync`. */
    method Sync(now: int) returns (err: Option<Error>)
      requires Valid()
      modifies fs, this`sinceSync, this`lastSync, this`inherited, this`steps, this`st
      ensures Blames(old(fs.refused), fs.refused, err)
      ensures bases == old(bases) && sealed == old(sealed) && active == old(active) && generation == old(generation)
      ensures err.None? ==> Valid() && AtRisk() == 0 && sinceSync == 0 && inherited == 0
      ensures err.None? ==> lastSync == if cfg.clocked then now else old(lastSync)
      ensures err.None? ==> st.segs == old(st.segs) && st.hist == old(st.hist) && st.acked == |st.hist|
      ensures err.Some? ==> err == Some(Io(Failed)) && Tracked() && !st.up
    {
      hide Consistent, Tracked;
      var ok := SyncSegment();
      if !ok {
        return Some(Io(Failed));
      }
      sinceSync, inherited := 0, 0;
      if cfg.clocked {
        lastSync := now;
      }
      err := None;
    }

    /** `createSegment`: the file, and then the directory entry that makes it findable after a power cut. */
    static method CreateSegment(fs: FS, cfg: Config, base: nat, ghost before: State, ghost origin: seq<Step>, ghost soFar: seq<Step>)
      returns (r: Result<Segment, Error>, ghost after: State, ghost steps: seq<Step>)
      requires TracksFrom(origin, fs.past, soFar, before) && before.disk == fs.View() && base == |before.hist|
      requires if before.segs == [] then !before.up
               else before.up && before.named && Active(before).recs != [] && before.synced == |Active(before).recs|
      modifies fs
      ensures Blames(old(fs.refused), fs.refused, ErrorOf(r))
      ensures TracksFrom(origin, fs.past, steps, after) && after.disk == fs.View()
      ensures r.Err? ==> r.error.Io? && !after.up
      ensures r.Ok? ==>
                && |before.kept| == |before.segs| && after == AfterSyncDirectory(AfterCreate(before))
                && SegmentName(base) !in before.disk.live
                && fresh(r.value) && r.value.fs == fs && r.value.Settled() && !r.value.sealed
                && r.value.base == base && r.value.recs == []
                && r.value.maxBytes == cfg.segment.Limit() && r.value.interval == cfg.segment.Interval()
                && SegmentName(base) in after.disk.live && r.value.node == after.disk.live[SegmentName(base)]
    {
      hide TracksFrom, EncodeAll, IndexOf, SegmentName, Inv, Enabled, Apply;
      TracksFromInvariant(origin, fs.past, soFar, before);
      SoundNow(before);
      MayCreate(before);
      after, steps := before, soFar;
      var made := Segment.CreateNamed(fs, SegmentName(base), base, cfg.segment);
      if made.Err? {
        ghost var stop := MayStop(before);
        SameKeeps(before.disk, TheLog);
        TracksFromStep(origin, old(fs.past), soFar, before, stop, fs.View());
        return Err(made.error), before.(up := false), soFar + [stop];
      }
      TracksFromStep(origin, old(fs.past), soFar, before, Durability.CreateSegment, fs.View());
      after, steps := AfterCreate(before), soFar + [Durability.CreateSegment];
      MaySyncDirectory(after);
      MayKill(after);
      ghost var past := fs.past;
      var ok := fs.Sync();
      if !ok {
        TracksFromStep(origin, past, steps, after, Kill, fs.View());
        return Err(Io(Failed)), after.(up := false), steps + [Kill];
      }
      TracksFromStep(origin, past, steps, after, SyncDirectory, fs.View());
      return Ok(made.value), AfterSyncDirectory(after), steps + [SyncDirectory];
    }

    /** `roll`: seal what is durable, then start the next segment where it ends. */
    method Roll(now: int) returns (err: Option<Error>)
      requires Valid() && active.recs != []
      modifies fs, active, this`bases, this`sealed, this`active, this`sinceSync, this`lastSync, this`inherited, this`steps, this`st
      ensures Blames(old(fs.refused), fs.refused, err)
      ensures generation == old(generation)
      ensures err.None? ==> Valid() && fresh(active) && AtRisk() == 0 && sinceSync == 0 && inherited == 0
      ensures err.None? ==> Carried(old(bases), old(Handles()), bases, Handles())
      ensures err.None? ==>
                && st.segs == old(st.segs) + [Seg(|st.hist|, [])]
                && st.hist == old(st.hist) && st.acked == |st.hist|
      ensures err.Some? ==> err.value.Io? && Tracked() && !st.up && active == old(active)
    {
      hide Consistent, Tracked;
      var ok := SyncSegment();
      if !ok {
        return Some(Io(Failed));
      }
      var failed := Replace();
      if failed.Some? {
        return failed;
      }
      sinceSync, inherited := 0, 0;
      if cfg.clocked {
        lastSync := now;
      }
      err := None;
    }

    /** The half of `roll` after the sync. */
    method Replace() returns (err: Option<Error>)
      requires Consistent() && active.recs != [] && st.synced == |active.recs|
      modifies fs, active, this`sealed, this`active, this`bases, this`steps, this`st
      ensures Blames(old(fs.refused), fs.refused, err)
      ensures err.None? ==> Consistent() && fresh(active) && active.recs == [] && !active.sealed && st.synced == 0
      ensures err.None? ==> Carried(old(bases), old(Handles()), bases, Handles())
      ensures err.None? ==>
                && st.segs == old(st.segs) + [Seg(|st.hist|, [])]
                && st.hist == old(st.hist) && st.acked == old(st.acked)
      ensures err.Some? ==> err.value.Io? && Tracked() && !st.up && active == old(active)
    {
      hide TracksFrom, EncodeAll, Segment.Settled, SegmentName, Inv, Directory, Cached;
      ActiveIsValid();
      active.Seal();
      var base := active.next;
      ghost var before := st;
      var made;
      made, st, steps := CreateSegment(fs, cfg, base, st, origin, steps);
      if made.Err? {
        return Some(made.error);
      }
      DistinctBases(before);
      RolledState(before);
      NewBase(before);
      Adopt(made.value, before);
      err := None;
    }

    /** The sealed segment stays open for readers, and the new one takes its place. */
    method Adopt(next: Segment, ghost before: State)
      requires Tracked() && st.up && st.named && before.segs != []
      requires st.segs == before.segs + [Seg(next.base, [])]
      requires forall name :: name in before.disk.live ==> name in st.disk.live && st.disk.live[name] == before.disk.live[name]
      requires forall i, j :: 0 <= i < j < |before.segs| ==> before.segs[i].base != before.segs[j].base
      requires bases == BasesOf(before.segs)
      requires Handle(active, Active(before), before.disk.live) && active.sealed && Handle(next, Seg(next.base, []), st.disk.live)
      requires Cached(sealed, before.segs[..|before.segs| - 1], before.disk.live)
      requires next != active && next !in sealed.Values
      modifies this`sealed, this`active, this`bases
      ensures Consistent() && active == next
      ensures sealed == old(sealed[active.base := active]) && bases == old(bases) + [next.base]
    {
      hide TracksFrom, Handle, Cached, SegmentName, Segment.Settled;
      AdoptedCache(before.segs, before.disk.live, st.disk.live);
      sealed := sealed[active.base := active];
      active := next;
      bases := bases + [next.base];
      assert st.segs[..|st.segs| - 1] == before.segs;
    }

    lemma AdoptedCache(segs: seq<Seg>, live: map<string, nat>, now: map<string, nat>)
      requires segs != [] && Handle(active, segs[|segs| - 1], live) && active.sealed
      requires Cached(sealed, segs[..|segs| - 1], live)
      requires forall name :: name in live ==> name in now && now[name] == live[name]
      requires forall i, j :: 0 <= i < j < |segs| ==> segs[i].base != segs[j].base
      ensures Cached(sealed[active.base := active], segs, now) && active.base == segs[|segs| - 1].base
    {
      hide SegmentName, Segment.Settled;
      forall i | 0 <= i < |segs| && segs[i].base in sealed[active.base := active]
        ensures Handle(sealed[active.base := active][segs[i].base], segs[i], now)
        ensures sealed[active.base := active][segs[i].base].sealed
      {
        if i < |segs| - 1 {
          assert segs[..|segs| - 1][i] == segs[i];
        }
      }
    }

    /** One `AppendAll` on the active segment. */
    method WriteActive(rest: seq<Event>) returns (n: nat, first: nat, err: Option<Error>)
      requires Consistent() && !active.sealed && !active.IsFull() && rest != [] && |st.hist| + |rest| < TWO64
      modifies fs, active, this`steps, this`st
      ensures Blames(old(fs.refused), fs.refused, err)
      ensures err == Some(Io(Failed)) ==> Tracked() && !st.up && n == 0
      ensures err != Some(Io(Failed)) ==>
                var size := |EncodeAll(Last(old(st.segs)).recs)|;
                && old(st.segs) != [] && !Full(Last(old(st.segs)), cfg.segment.Limit())
                && Consistent() && !active.sealed
                && n == Taken(size, cfg.segment.Limit(), rest) && first == |old(st.hist)|
                && st.segs == Grown(old(st.segs), rest[..n]) && st.hist == old(st.hist) + rest[..n]
                && st.synced == old(st.synced) && st.acked == old(st.acked)
                && |active.recs| == |old(active.recs)| + n
                && (err.Some? <==> StopsAtRefusal(size, cfg.segment.Limit(), rest))
                && (err.Some? ==> n < |rest| && err == Some(Refused(Reason(rest[n]))))
    {
      hide TracksFrom, EncodeAll, Segment.Settled, SegmentName, Inv, Directory, Enabled, Apply, Taken, StopsAtRefusal, Stamp,
           Cached;
      ActiveIsValid();
      ActiveFacts();
      ghost var before := st;
      ghost var k := Taken(active.size, active.maxBytes, rest);
      ghost var more := rest[..k];
      ghost var stored;
      n, first, err, stored := active.AppendAll(rest);
      ghost var bytes := EncodeAll(Stamp(|before.hist|, more));
      if k == 0 {
        GrownNothing(before.segs);
        assert before.hist + more == before.hist;
        StampNothing(|before.hist|, rest);
        assert old(active.recs) + [] == old(active.recs) && fs.past == old(fs.past);
        NothingAppended(before.disk, active.node);
      } else if err == Some(Io(Failed)) {
        MayWriteShort(before, more, stored);
        Advance(ShortWrite(more, stored));
      } else {
        MayWrite(before, more);
        assert bytes[..stored] == bytes;
        Advance(Write(more));
        WrittenState(before, more);
      }
    }

    /** One turn of the append loop: roll if the active segment is full, then write what fits. */
    method AppendSome(rest: seq<Event>, now: int) returns (n: nat, first: nat, err: Option<Error>)
      requires Valid() && rest != [] && |st.hist| + |rest| < TWO64
      modifies fs, active, this`bases, this`sealed, this`active, this`sinceSync, this`lastSync, this`inherited, this`steps, this`st
      ensures Blames(old(fs.refused), fs.refused, err)
      ensures generation == old(generation) && (active == old(active) || fresh(active))
      ensures err.Some? && err.value.Io? ==> Tracked() && !st.up && n == 0
      ensures !(err.Some? && err.value.Io?) ==>
                && Valid() && n <= |rest| && first == |old(st.hist)| && st.hist == old(st.hist) + rest[..n]
                && st.acked >= old(st.acked) && old(st.segs) != [] && st.segs != []
                && n == Taken(|EncodeAll(Last(Rolled(old(st.segs), cfg.segment.Limit())).recs)|, cfg.segment.Limit(), rest)
                && Carried(old(bases), old(Handles()), bases, Handles()) && (inherited == 0 || inherited == old(inherited))
                && (err.Some? ==>
                      && st.segs == AppendEach(old(st.segs), rest, cfg.segment.Limit())
                      && Accepted(rest) == n < |rest| && err == Some(Refused(Reason(rest[n]))))
                && (err.None? ==>
                      && n > 0
                      && AppendEach(st.segs, rest[n..], cfg.segment.Limit()) == AppendEach(old(st.segs), rest, cfg.segment.Limit())
                      && Accepted(rest) == n + Accepted(rest[n..]))
    {
      hide Consistent, Tracked, EncodeAll, Taken, StopsAtRefusal, AppendEach, Accepted, Grown;
      ghost var limit := cfg.segment.Limit();
      ActiveFacts();
      RollFirst(st.segs, rest, limit);
      if active.IsFull() {
        err := Roll(now);
        if err.Some? {
          return 0, 0, err;
        }
      }
      ActiveFacts();
      ghost var segs := st.segs;
      assert segs == Rolled(old(st.segs), limit);
      n, first, err := WriteActive(rest);
      if err == Some(Io(Failed)) {
        return 0, first, err;
      }
      OneWrite(segs, rest, limit);
      sinceSync := sinceSync + n;
    }

    /** `Append`: the loop, and then the durability decision once for the whole batch. */
    method Append(events: seq<Event>, now: int) returns (offsets: seq<nat>, err: Option<Error>)
      requires Valid() && |st.hist| + |events| < TWO64
      modifies fs, active, this`bases, this`sealed, this`active, this`sinceSync, this`lastSync, this`inherited, this`steps, this`st
      ensures Blames(old(fs.refused), fs.refused, err)
      ensures generation == old(generation) && (active == old(active) || fresh(active))
      ensures err.Some? && err.value.Io? ==> Tracked() && !st.up
      ensures !(err.Some? && err.value.Io?) ==>
                && Valid() && AppendedTo(old(st), st, cfg.segment.Limit(), events, offsets, err)
                && Carried(old(bases), old(Handles()), bases, Handles()) && (inherited == 0 || inherited == old(inherited))
                && RolledInTime(old(st).segs, st.segs, SegmentBytes(cfg), events, err)
      ensures err.None? && events != [] && cfg.mode == EveryCall ==> AtRisk() == 0 && st.acked == |st.hist|
      ensures err.None? && events != [] && cfg.mode == Batch && cfg.syncRecords > 0 ==> sinceSync < cfg.syncRecords
      ensures err.None? && events != [] && cfg.mode == Batch && cfg.syncInterval > 0 && cfg.clocked ==>
                now - lastSync < cfg.syncInterval
    {
      hide Consistent, Tracked, AppendedTo, RolledInTime;
      offsets, err := AppendLoop(events, now);
      if !(err.Some? && err.value.Io?) {
        AppendedRolls(old(st), st, cfg, events, offsets, err);
      }
      if events == [] || err.Some? {
        return;
      }
      ghost var after := st;
      err := MaybeSync(now);
      if err.None? {
        SameAppended(old(st), after, st, cfg.segment.Limit(), events, offsets);
      }
    }

    method AppendLoop(events: seq<Event>, now: int) returns (offsets: seq<nat>, err: Option<Error>)
      requires Valid() && |st.hist| + |events| < TWO64
      modifies fs, active, this`bases, this`sealed, this`active, this`sinceSync, this`lastSync, this`inherited, this`steps, this`st
      ensures Blames(old(fs.refused), fs.refused, err)
      ensures generation == old(generation) && (active == old(active) || fresh(active))
      ensures err.Some? && err.value.Io? ==> Tracked() && !st.up
      ensures !(err.Some? && err.value.Io?) ==>
                && Valid() && AppendedTo(old(st), st, cfg.segment.Limit(), events, offsets, err)
                && Carried(old(bases), old(Handles()), bases, Handles()) && (inherited == 0 || inherited == old(inherited))
    {
      hide Valid, Tracked, AppendedTo, AppendEach, Accepted, Range;
      offsets, err := [], None;
      ghost var before := st;
      Begin(events);
      var rest := events;
      while rest != []
        invariant Valid() && err.None? && |st.hist| + |rest| < TWO64 && old(fs.refused) <= fs.refused
        invariant generation == old(generation) && (active == old(active) || fresh(active))
        invariant |rest| <= |events| && rest == events[|events| - |rest|..]
        invariant Halfway(before, st, cfg.segment.Limit(), events, |events| - |rest|, offsets)
        invariant Carried(old(bases), old(Handles()), bases, Handles()) && (inherited == 0 || inherited == old(inherited))
        decreases |rest|
      {
        rest, offsets, err := AppendTurn(rest, offsets, now, before, events);
        if err.Some? {
          return;
        }
      }
      Finished(before, st, cfg.segment.Limit(), events, offsets);
    }

    lemma Begin(events: seq<Event>)
      requires Valid()
      ensures Halfway(st, st, cfg.segment.Limit(), events, 0, []) && events[0..] == events
    {
      hide Tracked, Halfway;
      ActiveFacts();
      NotBegun(st, cfg.segment.Limit(), events);
    }

    method AppendTurn(rest: seq<Event>, soFar: seq<nat>, now: int, ghost before: State, ghost events: seq<Event>)
      returns (left: seq<Event>, offsets: seq<nat>, err: Option<Error>)
      requires Valid() && rest != [] && |st.hist| + |rest| < TWO64
      requires |rest| <= |events| && rest == events[|events| - |rest|..]
      requires Halfway(before, st, cfg.segment.Limit(), events, |events| - |rest|, soFar)
      modifies fs, active, this`bases, this`sealed, this`active, this`sinceSync, this`lastSync, this`inherited, this`steps, this`st
      ensures Blames(old(fs.refused), fs.refused, err)
      ensures generation == old(generation) && (active == old(active) || fresh(active))
      ensures err.Some? && err.value.Io? ==> Tracked() && !st.up
      ensures err.Some? && !err.value.Io? ==> Valid() && AppendedTo(before, st, cfg.segment.Limit(), events, offsets, err)
      ensures !(err.Some? && err.value.Io?) ==>
                Carried(old(bases), old(Handles()), bases, Handles()) && (inherited == 0 || inherited == old(inherited))
      ensures err.None? ==>
                && Valid() && |left| < |rest| && |st.hist| + |left| < TWO64 && left == events[|events| - |left|..]
                && Halfway(before, st, cfg.segment.Limit(), events, |events| - |left|, offsets)
    {
      hide Consistent, Tracked, AppendEach, Accepted, Range, AppendedTo, Framable, Reason, Taken, Rolled, EncodeAll;
      left, offsets := rest, soFar;
      ghost var d := |events| - |rest|;
      ghost var mid := st;
      var n, first;
      n, first, err := AppendSome(rest, now);
      if err.Some? && err.value.Io? {
        return;
      }
      OneTurn(before, mid, st, cfg.segment.Limit(), events, d, d + n, soFar, n, err);
      offsets := soFar + Range(first, n);
      if err.Some? {
        return;
      }
      left := rest[n..];
    }

    /** `maybeSync`: the durability mode decides. */
    method MaybeSync(now: int) returns (err: Option<Error>)
      requires Valid()
      modifies fs, this`sinceSync, this`lastSync, this`inherited, this`steps, this`st
      ensures Blames(old(fs.refused), fs.refused, err)
      ensures bases == old(bases) && sealed == old(sealed) && active == old(active) && generation == old(generation)
      ensures err.None? ==> Valid() && st.segs == old(st.segs) && st.hist == old(st.hist)
      ensures err.None? && SyncIsDue(cfg, old(sinceSync), now - old(lastSync)) ==>
                && AtRisk() == 0 && st.acked == |st.hist| && sinceSync == 0 && inherited == 0
                && lastSync == if cfg.clocked then now else old(lastSync)
      ensures !SyncIsDue(cfg, old(sinceSync), now - old(lastSync)) ==>
                && err.None? && st == old(st) && fs.past == old(fs.past)
                && sinceSync == old(sinceSync) && inherited == old(inherited) && lastSync == old(lastSync)
      ensures err.Some? ==> err == Some(Io(Failed)) && Tracked() && !st.up
    {
      hide Consistent, Tracked;
      if cfg.mode == EveryCall {
        err := Sync(now);
        return;
      }
      err := None;
      if cfg.mode == Never {
        return;
      }
      if cfg.syncRecords > 0 && sinceSync >= cfg.syncRecords {
        err := Sync(now);
        return;
      }
      if cfg.syncInterval > 0 && now - lastSync >= cfg.syncInterval {
        err := Sync(now);
      }
    }

    /** `Open`: the highest segment is scanned and its tail cut off; an empty directory gets a first segment. */
    static method Open(fs: FS, config: Config, now: int, ghost before: State, ghost origin: seq<Step>, ghost soFar: seq<Step>)
      returns (r: Result<Log, Error>, f: Found, ghost after: State, ghost steps: seq<Step>)
      requires TracksFrom(origin, fs.past, soFar, before) && before.disk == fs.View() && !before.up && before.named
      modifies fs
      ensures Blames(old(fs.refused), fs.refused, ErrorOf(r))
      ensures TracksFrom(origin, fs.past, steps, after) && after.disk == fs.View()
      ensures r == Err(BadConfig) <==> config.mode == Batch && config.syncInterval > 0 && !config.clocked
      ensures r.Err? ==> r == Err(BadConfig) || r.error.Io?
      ensures r.Ok? ==>
                && fresh(r.value) && r.value.Valid() && r.value.fs == fs && AskedFor(config, r.value.cfg)
                && r.value.active.maxBytes == SegmentBytes(config)
                && r.value.active.interval == (if config.segment.interval > 0 then config.segment.interval else 4096)
                && r.value.st == after && r.value.steps == steps && r.value.origin == origin
                && r.value.sinceSync == 0 && r.value.generation == 0
                && r.value.lastSync == (if before.segs != [] && config.clocked then now else 0)
                && (before.segs == [] ==> after.segs == [Seg(0, [])] && r.value.inherited == 0)
                && (before.segs != [] ==>
                      && after.segs == before.segs && after.hist == before.hist && after.acked == before.acked
                      && f.records == Active(before).recs && f.valid == |EncodeAll(Active(before).recs)|
                      && f.discarded == |before.tail| && f.next == |before.hist|)
    {
      hide TracksFrom, EncodeAll, Segment.Settled, SegmentName, ParseSegmentName, Inv, Scan, Log.Valid;
      after, steps := before, soFar;
      f := Found([], 0, 0, 0, false, false);
      var cfg := config.WithDefaults();
      if cfg.mode == Batch && cfg.syncInterval > 0 && !cfg.clocked {
        return Err(BadConfig), f, after, steps;
      }
      var names := fs.List();
      var bases := SegmentBases(names);
      TracksFromInvariant(origin, fs.past, soFar, before);
      BasesListed(before, names, bases);
      if bases == [] {
        r, after, steps := OpenFirst(fs, cfg, before, origin, soFar);
      } else {
        r, f, after, steps := OpenLast(fs, cfg, bases, now, before, origin, soFar);
      }
      if r.Ok? {
        r.value.ActiveLimits();
      }
    }

    lemma ActiveLimits()
      requires Valid()
      ensures active.maxBytes == cfg.segment.Limit() && active.interval == cfg.segment.Interval()
    {
      hide TracksFrom, Cached, Segment.Settled;
    }

    /** `Open` on a directory with no segment. */
    static method OpenFirst(fs: FS, cfg: Config, ghost before: State, ghost origin: seq<Step>, ghost soFar: seq<Step>)
      returns (r: Result<Log, Error>, ghost after: State, ghost steps: seq<Step>)
      requires TracksFrom(origin, fs.past, soFar, before) && before.disk == fs.View() && !before.up && before.segs == []
      modifies fs
      ensures Blames(old(fs.refused), fs.refused, ErrorOf(r))
      ensures TracksFrom(origin, fs.past, steps, after) && after.disk == fs.View()
      ensures r.Err? ==> r.error.Io?
      ensures r.Ok? ==>
                && fresh(r.value) && r.value.Valid() && r.value.fs == fs && r.value.cfg == cfg
                && r.value.st == after && r.value.steps == steps && r.value.origin == origin
                && r.value.sinceSync == 0 && r.value.generation == 0 && r.value.lastSync == 0
                && after.segs == [Seg(0, [])] && r.value.inherited == 0
    {
      hide TracksFrom, EncodeAll, Segment.Settled, SegmentName, Inv, Log.Consistent;
      TracksFromInvariant(origin, fs.past, soFar, before);
      FirstState(before);
      var made;
      made, after, steps := CreateSegment(fs, cfg, 0, before, origin, soFar);
      if made.Err? {
        return Err(made.error), after, steps;
      }
      var log := new Log(fs, cfg, [0], made.value, 0, origin, steps, after, 0);
      r := Ok(log);
    }

    /** `Open` on a directory whose highest segment begins at the last of `bases`. */
    static method OpenLast(fs: FS, cfg: Config, bases: seq<nat>, now: int, ghost before: State, ghost origin: seq<Step>, ghost soFar: seq<Step>)
      returns (r: Result<Log, Error>, f: Found, ghost after: State, ghost steps: seq<Step>)
      requires TracksFrom(origin, fs.past, soFar, before) && before.disk == fs.View() && !before.up && before.named
      requires bases != [] && bases == BasesOf(before.segs)
      modifies fs
      ensures Blames(old(fs.refused), fs.refused, ErrorOf(r))
      ensures TracksFrom(origin, fs.past, steps, after) && after.disk == fs.View()
      ensures r.Err? ==> r.error.Io?
      ensures r.Ok? ==>
                && fresh(r.value) && r.value.Valid() && r.value.fs == fs && r.value.cfg == cfg
                && r.value.st == after && r.value.steps == steps && r.value.origin == origin
                && r.value.sinceSync == 0 && r.value.generation == 0 && r.value.lastSync == (if cfg.clocked then now else 0)
                && after.segs == before.segs && after.hist == before.hist && after.acked == before.acked
                && f.records == Active(before).recs && f.valid == |EncodeAll(Active(before).recs)|
                && f.discarded == |before.tail| && f.next == |before.hist|
    {
      hide TracksFrom, EncodeAll, Segment.Settled, SegmentName, Inv, Log.Consistent;
      TracksFromInvariant(origin, fs.past, soFar, before);
      SyncedWithin(before);
      var found;
      found, f, after, steps := Resume(fs, cfg, bases[|bases| - 1], before, origin, soFar);
      if found.Err? {
        return Err(found.error), f, after, steps;
      }
      var log := new Log(fs, cfg, bases, found.value, if cfg.clocked then now else 0, origin, steps, after,
                         |Active(before).recs| - before.synced);
      r := Ok(log);
    }

    /** `segmentFor`: the segment whose stretch holds `off`, opened if it is not open yet. */
    method SegmentFor(off: nat) returns (r: Result<Segment, Error>, ghost i: nat)
      requires Consistent()
      modifies fs, this`sealed, this`steps, this`st
      ensures Blames(old(fs.refused), fs.refused, ErrorOf(r))
      ensures Consistent() && st == old(st)
      ensures forall b :: b in old(sealed) ==> b in sealed && sealed[b] == old(sealed[b])
      ensures off >= |st.hist| ==> r == Err(NotFound)
      ensures r.Err? && off < |st.hist| ==> r.error.Io?
      ensures r.Ok? ==>
                && i < |st.segs| && st.segs[i].base <= off < End(st, i)
                && r.value.Valid() && Handle(r.value, st.segs[i], st.disk.live)
                && (if i == |st.segs| - 1 then r.value == active
                    else r.value != active && st.segs[i].base in sealed && sealed[st.segs[i].base] == r.value)
    {
      hide TracksFrom, EncodeAll, Segment.Settled, SegmentName, Inv, Cached;
      ActiveIsValid();
      FirstIsZero();
      i := 0;
      if off < bases[0] || off >= active.next {
        return Err(NotFound), 0;
      }
      BasesAscendNow();
      var n := Search(bases, (b: nat) => b > off);
      i := n - 1;
      var base := bases[n - 1];
      if base == active.base {
        DistinctNow(i);
        return Ok(active), i;
      }
      if base in sealed {
        CachedHandle(i);
        HandleIsValid(sealed[base], i);
        return Ok(sealed[base]), i;
      }
      r := OpenSealed(base, i);
    }

    /** A sealed segment has no legitimate tail, so it is opened without being changed. */
    method OpenSealed(base: nat, ghost i: nat) returns (r: Result<Segment, Error>)
      requires Consistent() && i + 1 < |st.segs| && base == st.segs[i].base && base !in sealed
      modifies fs, this`sealed, this`steps, this`st
      ensures Blames(old(fs.refused), fs.refused, ErrorOf(r))
      ensures Consistent() && st == old(st)
      ensures forall b :: b in old(sealed) ==> b in sealed && sealed[b] == old(sealed[b])
      ensures r.Err? ==> r.error.Io? && sealed == old(sealed)
      ensures r.Ok? ==>
                && r.value.Valid() && Handle(r.value, st.segs[i], st.disk.live) && r.value != active
                && base in sealed && sealed[base] == r.value
    {
      hide TracksFrom, EncodeAll, SegmentName, Inv, Enabled, Apply, Scan, Handle, Cached, Segment.Settled, Ascending, Directory;
      Knows();
      MayIdle(st);
      SameKeeps(st.disk, TheLog);
      SealedScan(st, i);
      var f;
      r, f := Segment.OpenNamed(fs, SegmentName(base), base, cfg.segment, false);
      assert fs.View() == old(fs.View()) && fs.past[..|fs.past| - 1] == old(fs.past);
      Advance(Other(st.disk));
      if r.Err? {
        return;
      }
      r.value.Seal();
      DistinctBases(st);
      assert st.segs[..|st.segs| - 1][i] == st.segs[i];
      GoodHandle(r.value, i);
      CachedOneMore(sealed, r.value, st.segs[..|st.segs| - 1], st.disk.live, i);
      sealed := sealed[base := r.value];
    }

    lemma GoodHandle(s: Segment, i: nat)
      requires i < |st.segs| && s.fs == fs && s.Settled() && s.base == st.segs[i].base && s.recs == st.segs[i].recs
      requires s.maxBytes == cfg.segment.Limit() && s.interval == cfg.segment.Interval()
      requires SegmentName(s.base) in st.disk.live && s.node == st.disk.live[SegmentName(s.base)]
      ensures Handle(s, st.segs[i], st.disk.live)
    {
    }

    lemma CachedOneMore(cache: map<nat, Segment>, s: Segment, segs: seq<Seg>, live: map<string, nat>, i: nat)
      requires Cached(cache, segs, live) && i < |segs|
      requires forall a, b :: 0 <= a < b < |segs| ==> segs[a].base != segs[b].base
      requires Handle(s, segs[i], live) && s.sealed
      ensures Cached(cache[segs[i].base := s], segs, live)
    {
      hide SegmentName, Segment.Settled;
    }

    lemma CachedHandle(i: nat)
      requires Consistent() && i + 1 < |st.segs| && st.segs[i].base in sealed
      ensures Handle(sealed[st.segs[i].base], st.segs[i], st.disk.live) && sealed[st.segs[i].base].sealed
      ensures sealed[st.segs[i].base] != active
    {
      hide SegmentName, Segment.Settled, Tracked;
      assert st.segs[..|st.segs| - 1][i] == st.segs[i];
    }

    lemma FirstIsZero()
      requires Tracked() && st.segs != []
      ensures st.segs[0].base == 0
    {
      hide Stored, SealedTiled, ActiveTiled, AllFramable, TracksFrom;
      TracksFromInvariant(origin, fs.past, steps, st);
    }

    lemma BasesAscendNow()
      requires Tracked()
      ensures forall i, j :: 0 <= i < j < |st.segs| ==> st.segs[i].base < st.segs[j].base
    {
      hide Stored, Tiled, TracksFrom;
      TracksFromInvariant(origin, fs.past, steps, st);
      BasesFit(st);
    }

    lemma DistinctNow(i: nat)
      requires Tracked() && i < |st.segs| && st.segs[i].base == Active(st).base
      ensures i == |st.segs| - 1
    {
      hide TracksFrom;
      BasesAscendNow();
    }

    /** `Read`: the event the history has at `off`, unless compaction dropped it. */
    method Read(off: nat) returns (r: Result<Record, Error>)
      requires Valid()
      modifies fs, this`sealed, this`steps, this`st
      ensures Blames(old(fs.refused), fs.refused, ErrorOf(r))
      ensures Valid() && st == old(st)
      ensures off >= |st.hist| ==> r == Err(NotFound)
      ensures r.Ok? ==> off < |st.hist| && r.value.offset == off && r.value.event == st.hist[off] && Standing(st, off)
      ensures r == Err(NotFound) && off < |st.hist| ==> !Standing(st, off)
      ensures r == Err(NotFound) && off < |st.hist| ==>
                exists i :: 0 <= i < |st.segs| - 1 && st.segs[i].base <= off < End(st, i) && Dropped(st.segs[i].recs, st.hist[off], off)
      ensures r.Ok? || r == Err(NotFound) || r.error.Io?
    {
      hide TracksFrom, EncodeAll, Segment.Settled, SegmentName, Inv, Cached;
      var s;
      ghost var i;
      s, i := SegmentFor(off);
      if s.Err? {
        return Err(s.error);
      }
      r := s.value.Read(off);
      Knows();
      PresentOrDropped(st, i, off);
      StandsOrNot(st, i, off);
    }

    /** The operation just performed was on a file that is no segment's. */
    ghost method Touched()
      requires |fs.past| > 0 && fs.past[|fs.past| - 1] == fs.View() && fs.Valid()
      requires TracksFrom(origin, fs.past[..|fs.past| - 1], steps, st) && NobodyMinds(st.disk, fs.View())
      modifies this`steps, this`st
      ensures Tracked() && Inv(st) && st == old(st).(disk := fs.View()) && SegmentsUntouched(old(st.disk), st.disk)
    {
      hide TracksFrom, Inv, Enabled, Apply, SegmentsUntouched, Directory;
      TracksFromInvariant(origin, fs.past[..|fs.past| - 1], steps, st);
      SoundNow(st);
      KeepsSegments(st.disk, fs.View(), TheCommits);
      MayTouchOthers(st, fs.View());
      Advance(Other(fs.View()));
    }

    /** The operation just performed was somebody else's, on a file of theirs. */
    ghost method TouchedBy(o: Owner)
      requires |fs.past| > 0 && fs.past[|fs.past| - 1] == fs.View() && fs.Valid()
      requires TracksFrom(origin, fs.past[..|fs.past| - 1], steps, st) && Keeps(st.disk, fs.View(), o) && o != TheLog
      modifies this`origin, this`steps, this`st
      ensures Tracked() && Inv(st) && st == old(st).(disk := fs.View()) && SegmentsUntouched(old(st.disk), st.disk)
      ensures origin == steps == old(steps) + [Other(fs.View())]
    {
      hide Inv, SegmentsUntouched, Directory, Tracks, Keeps;
      var past, d := fs.past[..|fs.past| - 1], fs.View();
      TracksBeside(past, steps, st, d, o);
      assert fs.past == past + [d];
      steps, st := steps + [Other(d)], st.(disk := d);
      origin := steps;
      TracksHere(fs.past, steps, st);
    }

    /** From here on. */
    ghost method Mark()
      requires Tracked()
      modifies this`origin
      ensures Tracked() && origin == steps
    {
      hide Tracks;
      origin := steps;
      TracksHere(fs.past, steps, st);
    }

    /** After such an operation the log is as consistent as before. */
    lemma StillConsistent(before: State)
      requires Tracked() && st == before.(disk := st.disk) && before.up && before.named && before.segs != []
      requires SegmentsUntouched(before.disk, st.disk) && Inv(before)
      requires bases == BasesOf(before.segs) && active !in sealed.Values
      requires Handle(active, Active(before), before.disk.live)
      requires Cached(sealed, before.segs[..|before.segs| - 1], before.disk.live)
      ensures Consistent()
    {
      hide TracksFrom, Inv, SegmentName, ParseSegmentName, Segment.Settled, EncodeAll;
      ParsedNames(before);
    }

    /** A directory sync by whoever shares the directory. It makes the log's swaps durable and changes nothing it reads. */
    method SyncBeside() returns (ok: bool)
      requires Consistent()
      modifies fs, this`steps, this`st
      ensures Blames(old(fs.refused), fs.refused, Refusing(ok))
      ensures Consistent() && fs.past == old(fs.past) + [fs.View()]
      ensures st == if ok then AfterSyncDirectory(old(st)) else old(st)
    {
      hide TracksFrom, Inv, Handle, Cached, Directory, Enabled, Apply;
      ghost var before := st;
      Knows();
      MaySyncDirectory(before);
      MayIdle(before);
      SameKeeps(before.disk, TheLog);
      ok := fs.Sync();
      if ok {
        Advance(SyncDirectory);
        SyncedConsistent(before);
      } else {
        Advance(Other(before.disk));
      }
    }

    lemma SyncedConsistent(before: State)
      requires Tracked() && st == AfterSyncDirectory(before) && before.up && before.named && before.segs != []
      requires bases == BasesOf(before.segs) && active !in sealed.Values
      requires Handle(active, Active(before), before.disk.live)
      requires Cached(sealed, before.segs[..|before.segs| - 1], before.disk.live)
      ensures Consistent()
    {
      hide TracksFrom, Handle, Cached;
    }

    /** Somebody else's operation on a file of theirs, once it is done. */
    ghost method NotedBy(o: Owner, before: State)
      requires |fs.past| > 0 && fs.past[|fs.past| - 1] == fs.View() && fs.Valid()
      requires TracksFrom(origin, fs.past[..|fs.past| - 1], steps, st) && Keeps(st.disk, fs.View(), o) && o != TheLog
      requires before == st && before.up && before.named && before.segs != []
      requires bases == BasesOf(before.segs) && active !in sealed.Values
      requires Handle(active, Active(before), before.disk.live)
      requires Cached(sealed, before.segs[..|before.segs| - 1], before.disk.live)
      modifies this`origin, this`steps, this`st
      ensures Consistent() && st == before.(disk := fs.View())
    {
      hide TracksFrom, Handle, Cached, Inv, Keeps, SegmentsUntouched, Directory;
      TracksFromInvariant(origin, fs.past[..|fs.past| - 1], steps, st);
      TouchedBy(o);
      StillConsistent(before);
    }

    /** Two of them, the first of which changed nothing. */
    ghost method NotedTwiceBy(o: Owner, before: State)
      requires |fs.past| > 1 && fs.past[|fs.past| - 1] == fs.View() && fs.past[|fs.past| - 2] == before.disk && fs.Valid()
      requires TracksFrom(origin, fs.past[..|fs.past| - 2], steps, st) && Keeps(st.disk, fs.View(), o) && o != TheLog
      requires before == st && before.up && before.named && before.segs != []
      requires bases == BasesOf(before.segs) && active !in sealed.Values
      requires Handle(active, Active(before), before.disk.live)
      requires Cached(sealed, before.segs[..|before.segs| - 1], before.disk.live)
      modifies this`origin, this`steps, this`st
      ensures Consistent() && st == before.(disk := fs.View())
    {
      hide Tracks, Handle, Cached, Inv, Keeps, SegmentsUntouched, Directory;
      var past := fs.past[..|fs.past| - 2];
      TracksFromInvariant(origin, past, steps, st);
      SoundNow(st);
      SameKeeps(st.disk, o);
      TracksBeside(past, steps, st, st.disk, o);
      assert fs.past[..|fs.past| - 1] == past + [st.disk];
      steps := steps + [Other(st.disk)];
      origin := steps;
      TracksHere(fs.past[..|fs.past| - 1], steps, st);
      NotedBy(o, before);
    }

    /** `removeStale`: a leftover from an interrupted compaction is not worth keeping. */
    method RemoveStale(tmp: string) returns (ok: bool)
      requires Consistent() && Temporary(tmp)
      modifies fs, this`steps, this`st
      ensures Blames(old(fs.refused), fs.refused, Refusing(ok))
      ensures Consistent() && st == old(st).(disk := st.disk)
      ensures SameSegmentEntries(old(st.disk.live), st.disk.live)
      ensures st.disk == old(st.disk) || st.disk == Removed(old(st.disk), tmp)
      ensures fs.past == old(fs.past) + [fs.View()]
      ensures ok ==> tmp !in st.disk.live
    {
      hide TracksFrom, Inv, Handle, Cached, ParseSegmentName, Temporary, NobodyMinds, Directory;
      Knows();
      ghost var before := st;
      var r := fs.Remove(tmp);
      RemovingAside(before.disk, tmp);
      SameDisk(before.disk);
      Touched();
      StillConsistent(before);
      ok := r.Ok? || r.error == NotExists;
    }

    /** `survivorsOf`: the offset of the last record for each key. */
    method SurvivorsOf(src: Segment) returns (survivors: set<nat>)
      requires src.Valid()
      ensures survivors == Compaction.Survivors(src.recs)
    {
      hide EncodeAll, IndexOf, ReadFrom, Directory, NewestMap;
      var newest: map<bytes, nat> := map[];
      var pos: nat, at: nat := 0, src.base;
      ghost var i := 0;
      ghost var tail := src.Data()[src.size..];
      assert src.Data() == EncodeAll(src.recs) + tail;
      assert src.recs[..0] == [] && src.recs[..|src.recs|] == src.recs;
      EmptyHasNoBytes();
      NothingNewest();
      while pos < src.size
        invariant i <= |src.recs| && pos == Start(src.recs, i)
        invariant i < |src.recs| ==> at <= src.recs[i].offset
        invariant newest == NewestMap(src.recs[..i])
        decreases |src.recs| - i
      {
        assert i < |src.recs|;
        ReadAtBoundary(src.recs, i, tail, at);
        var read := src.ReadRecordFrom(pos, at);
        newest := newest[read.value.event.key := read.value.offset];
        NewestPush(src.recs, i);
        StartStep(src.recs, i);
        pos, at := pos + read.value.len, read.value.offset + 1;
        i := i + 1;
      }
      StartsAscend(src.recs, i, |src.recs|);
      MapValuesSurvive(src.base, src.recs);
      survivors := newest.Values;
    }

    /** One record added to a file being written aside. */
    method AppendAside(dst: Segment, off: nat, e: Event, ghost tmp: string) returns (err: Option<Error>, ghost stored: nat)
      requires Consistent() && dst.Valid() && !dst.sealed && dst.fs == fs && dst != active && dst !in sealed.Values
      requires Aside(st.disk, tmp, dst.node) && off + 1 < TWO64
      modifies fs, dst, this`steps, this`st
      ensures Blames(old(fs.refused), fs.refused, err)
      ensures Consistent() && st == old(st).(disk := st.disk) && st.disk.live == old(st.disk.live)
      ensures off < NextOf(dst.base, old(dst.recs)) ==> err == Some(NotFound)
      ensures off >= NextOf(dst.base, old(dst.recs)) && !Framable(e) ==> err == Some(Refused(Reason(e)))
      ensures off < NextOf(dst.base, old(dst.recs)) || !Framable(e) ==> st == old(st) && fs.past == old(fs.past)
      ensures off >= NextOf(dst.base, old(dst.recs)) && Framable(e) ==>
                && (err == None || err == Some(Io(Failed))) && stored <= RecordLen(e)
                && st.disk == Appended(old(st.disk), dst.node, Encode(off, e)[..stored]) && fs.past == old(fs.past) + [fs.View()]
      ensures err.None? ==> dst.Valid() && !dst.sealed && Aside(st.disk, tmp, dst.node) && dst.recs == old(dst.recs) + [Rec(off, e)]
    {
      hide TracksFrom, Inv, Handle, Cached, EncodeAll, Encode, Framable, SegmentsUntouched, NobodyMinds, Aside, Segment.Settled, Ascending,
           Directory;
      Knows();
      ghost var before := st;
      NextFact(dst);
      err, stored := dst.AppendAt(off, e);
      if err.Some? && err != Some(Io(Failed)) {
        return;
      }
      AppendingAside(before.disk, tmp, dst.node, Encode(off, e)[..stored]);
      Touched();
      StillConsistent(before);
    }

    lemma NextFact(dst: Segment)
      requires dst.Valid()
      ensures dst.next == NextOf(dst.base, dst.recs)
    {
      hide EncodeAll, IndexOf;
    }

    lemma HandleStays(s: Segment, i: nat, before: map<string, nat>)
      requires Consistent() && i < |st.segs| && Handle(s, st.segs[i], before) && SameSegmentEntries(before, st.disk.live)
      ensures Handle(s, st.segs[i], st.disk.live)
    {
      hide TracksFrom, Inv, SegmentName, ParseSegmentName, Segment.Settled, Cached;
      Knows();
      ParsedNames(st);
    }

    lemma CopyBegins(src: Segment, i: nat, survivors: set<nat>)
      requires Consistent() && i < |st.segs| && Handle(src, st.segs[i], st.disk.live)
      ensures Ascending(src.base, src.recs) && Start(src.recs, 0) == 0 && Start(src.recs, |src.recs|) == src.size
      ensures src.recs != [] ==> src.base <= src.recs[0].offset
      ensures src.recs[..0] == [] && src.recs[..|src.recs|] == src.recs && KeepIn([], survivors) == []
    {
      hide Tracked, EncodeAll, SegmentName, IndexOf;
      HandleIsValid(src, i);
      EmptyHasNoBytes();
      assert src.recs[..0] == [] && src.recs[..|src.recs|] == src.recs;
    }

    /** The source's record at `pos`, which is its `k`th. */
    method ReadNext(src: Segment, pos: nat, at: nat, ghost i: nat, ghost k: nat) returns (off: nat, e: Event, len: nat)
      requires Consistent() && i < |st.segs| && Handle(src, st.segs[i], st.disk.live)
      requires k <= |src.recs| && pos == Start(src.recs, k) < src.size && (k < |src.recs| ==> at <= src.recs[k].offset)
      ensures k < |src.recs| && off == src.recs[k].offset && e == src.recs[k].event
      ensures Framable(e) && off + 1 < TWO64 && pos + len == Start(src.recs, k + 1)
      ensures k + 1 < |src.recs| ==> off + 1 <= src.recs[k + 1].offset
    {
      hide Tracked, EncodeAll, SegmentName, IndexOf, ReadFrom, Framable;
      HandleIsValid(src, i);
      assert src.recs[..|src.recs|] == src.recs;
      ghost var tail := src.Data()[src.size..];
      assert src.Data() == EncodeAll(src.recs) + tail;
      ReadAtBoundary(src.recs, k, tail, at);
      StartStep(src.recs, k);
      var read := src.ReadRecordFrom(pos, at);
      off, e, len := read.value.offset, read.value.event, read.value.len;
    }

    /** The copying loop of `writeCompacted`. Nothing goes below the base the copy was given. */
    method CopyAll(src: Segment, dst: Segment, survivors: set<nat>, ghost i: nat, ghost tmp: string) returns (err: Option<Error>)
      requires Consistent() && i < |st.segs| && Handle(src, st.segs[i], st.disk.live)
      requires dst.Valid() && !dst.sealed && dst.recs == [] && dst.fs == fs
      requires dst != src && dst != active && dst !in sealed.Values && Aside(st.disk, tmp, dst.node)
      modifies fs, dst, this`steps, this`st
      ensures Blames(old(fs.refused), fs.refused, err)
      ensures Consistent() && st == old(st).(disk := st.disk) && st.disk.live == old(st.disk.live)
      ensures err.None? ==> dst.Valid() && !dst.sealed && Aside(st.disk, tmp, dst.node) && dst.recs == KeepIn(src.recs, survivors)
      ensures err.Some? ==> err.value == NotFound || err.value == Io(Failed)
      ensures err == Some(NotFound) ==> Lowest(KeepIn(src.recs, survivors)) < dst.base
    {
      hide Consistent, Tracked, EncodeAll, Encode, Framable, KeepIn, Segment.Valid, Segment.Settled, Handle, Aside, ReadFrom,
           Ascending;
      ghost var rs := src.recs;
      ghost var before := st;
      var pos: nat, at: nat := 0, src.base;
      ghost var k := 0;
      CopyBegins(src, i, survivors);
      while pos < src.size
        invariant Consistent() && st == before.(disk := st.disk) && st.disk.live == before.disk.live
        invariant dst.Valid() && !dst.sealed && Aside(st.disk, tmp, dst.node)
        invariant k <= |rs| && pos == Start(rs, k) && (k < |rs| ==> at <= rs[k].offset)
        invariant dst.recs == KeepIn(rs[..k], survivors) && old(fs.refused) <= fs.refused
        decreases |rs| - k
      {
        var off, e, len := ReadNext(src, pos, at, i, k);
        KeepNext(src.base, rs, k, survivors);
        if off in survivors {
          var failed, _ := AppendAside(dst, off, e, tmp);
          if failed.Some? {
            if failed == Some(NotFound) {
              FirstKept(src.base, rs, k, survivors, dst.base);
            }
            return failed;
          }
        }
        pos, at := pos + len, off + 1;
        k := k + 1;
      }
      StartsAscend(rs, k, |rs|);
      err := None;
    }

    /** The file the survivors go to. */
    method CreateAside(tmp: string, base: nat) returns (r: Result<Segment, Error>)
      requires Consistent() && Temporary(tmp)
      modifies fs, this`steps, this`st
      ensures tmp !in old(st.disk.live) ==> Blames(old(fs.refused), fs.refused, ErrorOf(r))
      ensures old(fs.refused) <= fs.refused
      ensures Consistent() && st == old(st).(disk := st.disk) && SameSegmentEntries(old(st.disk.live), st.disk.live)
      ensures fs.past == old(fs.past) + [fs.View()]
      ensures r.Err? ==> r.error.Io? && st.disk == old(st.disk)
      ensures r.Ok? ==>
                && st.disk == Created(old(st.disk), tmp) && r.value.node == |old(st.disk).inodes|
                && fresh(r.value) && r.value.Valid() && !r.value.sealed && r.value.recs == []
                && r.value.fs == fs && r.value.base == base && Aside(st.disk, tmp, r.value.node)
    {
      hide TracksFrom, Inv, Handle, Cached, EncodeAll, ParseSegmentName, Temporary, Aside, NobodyMinds, Segment.Valid, Directory;
      Knows();
      ghost var before := st;
      r := Segment.CreateNamed(fs, tmp, base, cfg.segment);
      CreatingAside(before.disk, tmp);
      SameDisk(before.disk);
      Touched();
      StillConsistent(before);
    }

    /** A rename publishes whatever has been synced by then, so this comes first. */
    method SyncAside(dst: Segment, ghost tmp: string) returns (ok: bool)
      requires Consistent() && dst.Valid() && !dst.sealed && dst.fs == fs && Aside(st.disk, tmp, dst.node)
      modifies fs, this`steps, this`st
      ensures Blames(old(fs.refused), fs.refused, Refusing(ok))
      ensures Consistent() && st == old(st).(disk := st.disk) && fs.past == old(fs.past) + [fs.View()]
      ensures st.disk == if ok then FileSynced(old(st.disk), dst.node) else old(st.disk)
      ensures Aside(st.disk, tmp, dst.node)
      ensures ok ==> Holds(st.disk, dst.node, EncodeAll(dst.recs), EncodeAll(dst.recs))
    {
      hide TracksFrom, Inv, Handle, Cached, EncodeAll, Aside, NobodyMinds, SegmentsUntouched, Directory, IndexOf, Ascending;
      Knows();
      ghost var before := st;
      ok := dst.Sync();
      SyncingAside(before.disk, tmp, dst.node);
      SameDisk(before.disk);
      Touched();
      StillConsistent(before);
      assert dst.Data()[..dst.size] == dst.Data();
    }

    /** `writeCompacted`: the surviving records, in order, in a file that is synced before anyone sees it. */
    method WriteCompacted(tmp: string, base: nat, src: Segment, survivors: set<nat>, ghost i: nat)
      returns (err: Option<Error>, written: nat)
      requires Consistent() && i + 1 < |st.segs| && Handle(src, st.segs[i], st.disk.live)
      requires survivors == Compaction.Survivors(src.recs) && Temporary(tmp)
      modifies fs, this`steps, this`st
      ensures Blames(old(fs.refused), fs.refused, err)
      ensures Consistent() && st == old(st).(disk := st.disk)
      ensures err.Some? ==> err.value == NotFound || err.value.Io?
      ensures err == Some(NotFound) ==> Lowest(Compacted(st.segs[i].recs)) < base
      ensures err.None? ==>
                && Swappable(st, i, tmp) && Ascending(base, Compacted(st.segs[i].recs))
                && written == |EncodeAll(Compacted(st.segs[i].recs))|
    {
      hide Consistent, Tracked, SegmentName, Temporary, EncodeAll, Compacted, KeepIn, Aside, Lowest,
           Swappable, Directory, IndexOf, Ascending, SameSegmentEntries, Compaction.Survivors;
      written := 0;
      var ok := RemoveStale(tmp);
      if !ok {
        return Some(Io(Failed)), 0;
      }
      HandleStays(src, i, old(st.disk.live));
      ghost var live := st.disk.live;
      var made := CreateAside(tmp, base);
      if made.Err? {
        return Some(made.error), 0;
      }
      var dst := made.value;
      HandleStays(src, i, live);
      CopyBegins(src, i, survivors);
      CopyingSurvivors(src.base, src.recs);
      err := CopyAll(src, dst, survivors, i, tmp);
      if err.Some? {
        return;
      }
      ok := SyncAside(dst, tmp);
      if !ok {
        return Some(Io(Failed)), 0;
      }
      ReadyToSwap(st, i, tmp, dst.node);
      return None, dst.size;
    }

    /** `baseAfter`: the least base above `base`, if any segment begins there. */
    method BaseAfter(base: nat) returns (r: Option<nat>, ghost n: nat)
      requires Consistent()
      ensures r.None? <==> base >= Active(st).base
      ensures r.Some? ==> n < |st.segs| && r.value == st.segs[n].base > base && (n > 0 ==> st.segs[n - 1].base <= base)
    {
      hide Tracked, Cached, Handle;
      BasesAscendNow();
      var i := Search(bases, (b: nat) => b > base);
      n := i;
      assert bases[|bases| - 1] == Active(st).base;
      r := if i == |bases| then None else Some(bases[i]);
    }

    /**
     * The rename and the directory sync that makes it last. Under the segment's own base it
     * is the swap; under any other it adds a second segment over the same offsets.
     */
    method SwapIn(tmp: string, base: nat, ghost i: nat) returns (err: Option<Error>)
      requires Consistent() && i + 1 < |st.segs| && st.segs[i].base <= base < End(st, i)
      requires Swappable(st, i, tmp) && Ascending(base, Compacted(st.segs[i].recs))
      modifies fs, this`sealed, this`generation, this`steps, this`st
      ensures Blames(old(fs.refused), fs.refused, err)
      ensures sealed == (if err.None? then old(sealed) - {base} else old(sealed))
      ensures generation == old(generation) + if err.None? then 1 else 0
      ensures err.Some? ==> err.value.Io?
      ensures base == old(st.segs)[i].base && err.None? ==>
                Consistent() && st == AfterSyncDirectory(old(AfterSwap(st, i, tmp)))
      ensures base == old(st.segs)[i].base && err.Some? ==>
                if st.up then Consistent() && st == old(st).(disk := st.disk)
                else Tracked() && st == old(AfterSwap(st, i, tmp)).(up := false)
      ensures base != old(st.segs)[i].base ==>
                || Overlapping(fs.View(), old(st), i, base)
                || (err.Some? && Consistent() && st == old(st).(disk := st.disk))
    {
      hide TracksFrom, Inv, EncodeAll, SegmentName, Temporary, Cached, Handle, Compacted, Enabled, Apply, Overlapping, Ascending,
           NobodyMinds;
      Knows();
      MaySwap(st, i, tmp);
      ghost var before := st;
      ghost var own := base == st.segs[i].base;
      RenamedApart(before, i, tmp, base);
      var renamed := fs.Rename(tmp, SegmentName(base));
      if renamed.Err? {
        SameDisk(before.disk);
        Touched();
        StillConsistent(before);
        var _ := RemoveStale(tmp);
        return Some(Io(renamed.error));
      }
      if own {
        Advance(Swap(i, tmp));
      }
      err := SyncSwap(tmp, base, before, i);
    }

    method SyncSwap(ghost tmp: string, base: nat, ghost before: State, ghost i: nat) returns (err: Option<Error>)
      requires i + 1 < |before.segs| && before.up && before.named && Inv(before) && Swappable(before, i, tmp) && fs.Valid()
      requires bases == BasesOf(before.segs) && active !in sealed.Values
      requires Handle(active, Active(before), before.disk.live)
      requires Cached(sealed, before.segs[..|before.segs| - 1], before.disk.live)
      requires if base == before.segs[i].base then Tracked() && st == AfterSwap(before, i, tmp)
               else Overlapping(fs.View(), before, i, base)
      modifies fs, this`sealed, this`generation, this`steps, this`st
      ensures Blames(old(fs.refused), fs.refused, err)
      ensures sealed == (if err.None? then old(sealed) - {base} else old(sealed))
      ensures generation == old(generation) + if err.None? then 1 else 0
      ensures err.Some? ==> err.value.Io?
      ensures base == before.segs[i].base && err.None? ==> Consistent() && st == AfterSyncDirectory(AfterSwap(before, i, tmp))
      ensures base == before.segs[i].base && err.Some? ==> Tracked() && st == AfterSwap(before, i, tmp).(up := false)
      ensures base != before.segs[i].base ==> Overlapping(fs.View(), before, i, base)
    {
      hide TracksFrom, Inv, EncodeAll, SegmentName, ParseSegmentName, Cached, Handle, Compacted, Enabled, Apply, Swappable,
           Overlapping;
      ghost var own := base == before.segs[i].base;
      if own {
        Knows();
        MayKill(st);
        MaySyncDirectory(st);
      } else {
        SyncedStillOverlaps(fs.View(), before, i, base);
      }
      var ok := fs.Sync();
      if !ok {
        if own {
          Advance(Kill);
        }
        return Some(Io(Failed));
      }
      CachedWithout(sealed, before.segs[..|before.segs| - 1], before.disk.live, base);
      sealed := sealed - {base};
      if own {
        Advance(SyncDirectory);
        SwappedConsistent(before, i, tmp);
      }
      generation := generation + 1;
      err := None;
    }

    /** The rewriting half of `Compact`. */
    method Rewrite(src: Segment, base: nat, survivors: set<nat>, ghost i: nat) returns (err: Option<Error>, written: nat)
      requires Valid() && i + 1 < |st.segs| && Handle(src, st.segs[i], st.disk.live) && st.segs[i].base <= base < End(st, i)
      requires survivors == Compaction.Survivors(src.recs) && src.recs != []
      modifies fs, this`sealed, this`generation, this`steps, this`st
      ensures Blames(old(fs.refused), fs.refused, err)
      ensures sealed == (if err.None? then old(sealed) - {base} else old(sealed))
      ensures generation == old(generation) + if err.None? then 1 else 0
      ensures err.None? ==> written == |EncodeAll(Compacted(old(st).segs[i].recs))| && Lowest(Compacted(old(st).segs[i].recs)) >= base
      ensures err.Some? ==> err.value == NotFound || err.value.Io?
      ensures err == Some(NotFound) ==>
                && Valid() && st == old(st).(disk := st.disk) && Lowest(Compacted(old(st).segs[i].recs)) < base
                && LeftNothing(st.disk, SegmentName(base), old(fs.refused), fs.refused)
      ensures base == old(st.segs)[i].base ==>
                if err.None? then Valid() && CompactedAt(old(st), st, i)
                else if st.up then Valid() && st == old(st).(disk := st.disk)
                else err.value.Io? && Tracked() && CompactedAt(old(st), st, i)
      ensures base != old(st.segs)[i].base ==>
                || (err.Some? && Valid() && st == old(st).(disk := st.disk))
                || (Overlapping(fs.View(), old(st), i, base) && Lowest(Compacted(old(st).segs[i].recs)) >= base)
    {
      hide Tracked, Handle, Cached, EncodeAll, SegmentName, Temporary, Compacted, Swappable, Compaction.Survivors, Overlapping,
           Lowest, Ascending;
      var tmp := SegmentName(base) + COMPACTING_SUFFIX;
      AsideIsTemporary(SegmentName(base));
      SourceRecs(src, i);
      LastSurvives(base, src.recs);
      err, written := WriteCompacted(tmp, base, src, survivors, i);
      if err.Some? {
        var _ := RemoveStale(tmp);
        return;
      }
      LowestAscends(base, Compacted(src.recs));
      ghost var staged := st;
      err := SwapIn(tmp, base, i);
      SameOverlap(fs.View(), staged, old(st), i, base);
    }

    /**
     * `Compact`: one sealed segment, rewritten with only the newest record per key. Given an
     * offset inside a segment rather than its base, it finds that segment all the same, and
     * unless there is nothing to drop or a survivor lies below the offset, publishes the
     * copy beside it.
     */
    method Compact(base: nat) returns (r: Result<Report, Error>, ghost i: nat)
      requires Valid()
      modifies fs, this`sealed, this`generation, this`origin, this`steps, this`st
      ensures Blames(old(fs.refused), fs.refused, ErrorOf(r))
      ensures Answered(old(st), active.base, base, i, r)
      ensures base < active.base && base in bases ==> i < |old(st).segs| && old(st).segs[i].base == base
      ensures LeftTidy(old(st), st, base, i, r, old(generation), generation, old(fs.refused), fs.refused)
      ensures r.Ok? ==> (Valid() <==> !Misplaced(old(st), i, base))
      ensures base < active.base && Misplaced(old(st), i, base) ==>
                || (r.Err? && Valid() && st == old(st).(disk := st.disk))
                || (Overlapping(fs.View(), old(st), i, base) && !Valid())
      ensures !(base < active.base && Misplaced(old(st), i, base)) ==>
                && (r.Ok? ==> CompactedAt(old(st), st, i))
                && (r.Err? && st.up ==> Valid() && st == old(st).(disk := st.disk) && generation == old(generation))
                && (!st.up ==> r.Err? && r.error.Io? && Tracked() && base < active.base && CompactedAt(old(st), st, i))
                && (st.up && generation == old(generation) ==> st.segs == old(st.segs))
                && (base < active.base ==> SwapMoments(old(st), i, fs.past, |old(fs.past)|))
      ensures generation >= old(generation) && origin == old(origin)
      ensures StillOpen(old(sealed), sealed, base, old(generation), generation)
    {
      hide Consistent, Tracked, Compacted, Misplaced, Overlapping, Accounts, CompactedAt, SwapMoments, Lowest, LeftTidy, Answered,
           StillOpen;
      ghost var before, began, past, was := st, steps, fs.past, origin;
      Begun();
      Marked();
      ghost var top := active.base;
      r, i := CompactNow(base);
      WhichSegment(before, top, base, i, r);
      if Overlapping(fs.View(), before, i, base) {
        OverlapIsInconsistent(before, i, base);
      }
      Looked(before, began, past, was, i);
      if Overlapping(fs.View(), before, i, base) {
        OverlapIsInconsistent(before, i, base);
      }
    }

    /** `Compact`, looked at only when it is over. */
    method CompactNow(base: nat) returns (r: Result<Report, Error>, ghost i: nat)
      requires Valid()
      modifies fs, this`sealed, this`generation, this`steps, this`st
      ensures Blames(old(fs.refused), fs.refused, ErrorOf(r))
      ensures Answered(old(st), active.base, base, i, r)
      ensures base < active.base && base in bases ==> i < |old(st).segs| && old(st).segs[i].base == base
      ensures LeftTidy(old(st), st, base, i, r, old(generation), generation, old(fs.refused), fs.refused)
      ensures base < active.base && Misplaced(old(st), i, base) ==>
                || (r.Err? && Valid() && st == old(st).(disk := st.disk))
                || Overlapping(fs.View(), old(st), i, base)
      ensures !(base < active.base && Misplaced(old(st), i, base)) ==>
                && Tracked()
                && (r.Ok? ==> Valid() && CompactedAt(old(st), st, i))
                && (r.Err? && st.up ==> Valid() && st == old(st).(disk := st.disk) && generation == old(generation))
                && (!st.up ==> r.Err? && r.error.Io? && Tracked() && base < active.base && CompactedAt(old(st), st, i))
                && (st.up && generation == old(generation) ==> st.segs == old(st.segs))
      ensures generation >= old(generation)
      ensures StillOpen(old(sealed), sealed, base, old(generation), generation)
    {
      hide Tracked, Handle, EncodeAll, Compacted, Cached, Segment.Valid, Overlapping, Lowest, Misplaced, CompactedAt, Accounts,
           DroppedAny, SegmentName;
      i := 0;
      if base == active.base {
        return Err(ActiveSegment), 0;
      }
      ActiveBase();
      var after, _ := BaseAfter(base);
      if after.None? {
        return Err(NotFound), 0;
      }
      i := OwnSegment(base);
      var s;
      ghost var j;
      s, j := SegmentFor(base);
      if s.Err? {
        return Err(s.error), i;
      }
      OnlyOneSegment(base, i, j);
      r := CompactOne(s.value, base, i);
    }

    /** The segment is found; what is left is to see whether anything is to be dropped, and to drop it. */
    method CompactOne(src: Segment, base: nat, ghost i: nat) returns (r: Result<Report, Error>)
      requires Valid() && i + 1 < |st.segs| && Handle(src, st.segs[i], st.disk.live) && src.Valid()
      requires st.segs[i].base <= base < End(st, i)
      modifies fs, this`sealed, this`generation, this`steps, this`st
      ensures Blames(old(fs.refused), fs.refused, ErrorOf(r))
      ensures generation == old(generation) || (r.Ok? && generation == old(generation) + 1)
      ensures sealed == (if generation == old(generation) then old(sealed) else old(sealed) - {base})
      ensures r.Err? ==> r.error == NotFound || r.error.Io?
      ensures r == Err(NotFound) ==>
                && Valid() && st == old(st).(disk := st.disk) && Lowest(Compacted(old(st).segs[i].recs)) < base
                && LeftNothing(st.disk, SegmentName(base), old(fs.refused), fs.refused)
      ensures r.Ok? ==> DroppedAny(old(st), st, i, old(generation), generation)
      ensures r.Ok? ==> Accounts(r.value, base, old(st.segs)[i])
      ensures r.Err? && base == old(st.segs)[i].base ==> r.error.Io?
      ensures Misplaced(old(st), i, base) ==>
                || (r.Err? && Valid() && st == old(st).(disk := st.disk))
                || Overlapping(fs.View(), old(st), i, base)
      ensures !Misplaced(old(st), i, base) ==>
                && (r.Ok? ==> Valid() && CompactedAt(old(st), st, i) && (generation == old(generation) ==> st == old(st)))
                && (r.Err? && st.up ==> Valid() && st == old(st).(disk := st.disk))
                && (r.Err? && !st.up ==> r.error.Io? && Tracked() && CompactedAt(old(st), st, i) && base == old(st.segs)[i].base)
    {
      hide Tracked, Handle, EncodeAll, Compacted, Cached, Compaction.Survivors, Segment.Valid, Ascending, Overlapping, Lowest;
      OwnBaseFits(i);
      SourceFacts(src, i);
      var survivors := SurvivorsOf(src);
      SurvivorCount(src.base, src.recs);
      if |survivors| == src.count {
        NothingDropped(src.recs);
        assert st.segs == st.segs[i := st.segs[i]];
        return Ok(Report(base, |survivors|, 0, src.size, src.size));
      }
      var err, written := Rewrite(src, base, survivors, i);
      if err.Some? {
        return Err(err.value);
      }
      r := Ok(Report(base, |survivors|, src.count - |survivors|, src.size, written));
    }

    lemma Begun()
      requires Consistent()
      ensures Inv(st) && st.named && st.up && bases == BasesOf(st.segs) && TracksFrom(origin, fs.past, steps, st)
      ensures active.base == Active(st).base
    {
      hide TracksFrom, Inv, Handle, Cached;
      Knows();
      ActiveBase();
    }

    ghost method Marked()
      requires Valid()
      modifies this`origin
      ensures Valid() && origin == steps
    {
      hide TracksFrom, Handle, Cached;
      Mark();
    }

    /** A compaction seen from start to end: everything in between was a moment of one run. */
    ghost method Looked(before: State, began: seq<Step>, past: seq<Disk>, was: seq<Step>, i: nat)
      requires TracksFrom(was, past, began, before) && before.named && origin == began
      modifies this`origin
      ensures origin == was
      ensures old(Tracked()) ==> Tracked() && |past| <= |fs.past|
      ensures old(Tracked()) && i + 1 < |before.segs| ==> SwapMoments(before, i, fs.past, |past|)
      ensures old(Consistent()) ==> Consistent()
      ensures old(Valid()) ==> Valid()
    {
      hide Tracks, Handle, Cached, SwapMoments;
      if Tracked() {
        TracksFurther(was, past, began, before, fs.past, steps, st);
        PastIsDetermined(past, began, before, fs.past, steps, st);
        if i + 1 < |before.segs| {
          MomentsOfARun(before, began, past, fs.past, steps, st, i);
        }
      }
      origin := was;
    }

    /** A directory with a segment more than the log knows is not the log's. */
    lemma OverlapIsInconsistent(before: State, i: nat, base: nat)
      requires Overlapping(fs.View(), before, i, base) && bases == BasesOf(before.segs) && Inv(before)
      ensures !Consistent()
    {
      hide TracksFrom, Handle, Cached, ReadBack, SegmentName, Compacted, Inv;
      NotABase(before, i, base);
      if Consistent() {
        Knows();
        ListedBase(st, base);
      }
    }

    lemma ActiveBase()
      requires Consistent()
      ensures active.base == Active(st).base
      ensures active.base < |st.hist| || active.base == |st.hist|
      ensures forall b :: b in bases ==> b <= active.base
    {
      hide TracksFrom, Cached, Segment.Settled, SegmentName, Inv;
      BasesAscendNow();
      Knows();
      Basics(st);
    }

    /** The segment an offset below the active base falls in. */
    lemma OwnSegment(base: nat) returns (i: nat)
      requires Consistent() && base < active.base
      ensures i + 1 < |st.segs| && st.segs[i].base <= base < End(st, i) && base < |st.hist|
      ensures base in bases ==> st.segs[i].base == base
    {
      hide TracksFrom, Cached, Segment.Settled, SegmentName, Inv;
      BasesAscendNow();
      ActiveBase();
      Knows();
      i := SegmentHolding(st, base);
    }

    lemma OwnBaseFits(i: nat)
      requires Consistent() && i + 1 < |st.segs|
      ensures Lowest(Compacted(st.segs[i].recs)) >= st.segs[i].base && st.segs[i].recs != []
    {
      hide TracksFrom, Cached, Handle, Compacted, Inv, Ascending;
      Knows();
      SealedRecs(st, i);
      CompactedAscends(st.segs[i].base, st.segs[i].recs);
      LastSurvives(st.segs[i].base, st.segs[i].recs);
      LowestAscends(st.segs[i].base, Compacted(st.segs[i].recs));
    }

    lemma OnlyOneSegment(base: nat, i: nat, j: nat)
      requires Consistent() && i < |st.segs| && st.segs[i].base <= base < End(st, i)
      requires j < |st.segs| && st.segs[j].base <= base < End(st, j)
      ensures i == j
    {
      hide TracksFrom, Cached, Handle;
      BasesAscendNow();
    }

    lemma SourceRecs(src: Segment, i: nat)
      requires i < |st.segs| && Handle(src, st.segs[i], st.disk.live)
      ensures src.recs == st.segs[i].recs
    {
      hide Segment.Settled;
    }

    lemma SourceFacts(src: Segment, i: nat)
      requires src.Valid() && i < |st.segs| && Handle(src, st.segs[i], st.disk.live)
      ensures src.recs == st.segs[i].recs && src.count == |src.recs| && src.size == |EncodeAll(src.recs)|
      ensures Ascending(src.base, src.recs) && src.base == st.segs[i].base
    {
      hide EncodeAll, SegmentName, IndexOf, Ascending;
    }

    /** `CompactAll`: every sealed segment, in order. */
    method CompactAll() returns (reports: seq<Report>, err: Option<Error>)
      requires Valid()
      modifies fs, this`sealed, this`generation, this`origin, this`steps, this`st
      ensures Blames(old(fs.refused), fs.refused, err)
      ensures err.None? ==>
                && Valid() && |reports| == |old(st.segs)| - 1
                && st.segs == CompactedUpTo(old(st.segs), |reports|)
                && st.hist == old(st.hist) && st.acked == old(st.acked)
                && forall i :: 0 <= i < |reports| ==> Accounts(reports[i], old(st.segs)[i].base, old(st.segs)[i])
      ensures err.Some? ==> err.value.Io? && |reports| < |old(st.segs)| - 1
      ensures err.Some? && st.up ==> Valid() && st.segs == CompactedUpTo(old(st.segs), |reports|)
      ensures !st.up ==> err.Some? && Tracked() && st.segs == CompactedUpTo(old(st.segs), |reports| + 1)
      ensures origin == old(origin)
    {
      hide Tracked, Handle, Cached, Accounts, Compacted, Answered, LeftTidy, StillOpen, SwapMoments, Misplaced;
      reports, err := [], None;
      ActiveBase();
      ghost var before := st;
      var all := bases;
      var top := active.base;
      assert CompactedUpTo(st.segs, 0) == st.segs;
      for k := 0 to |all|
        invariant Valid() && bases == all && active.base == top && origin == old(origin)
        invariant |reports| <= k && (k < |all| ==> |reports| == k) && (k == |all| ==> |reports| == k - 1)
        invariant st.segs == CompactedUpTo(before.segs, |reports|)
        invariant st.hist == before.hist && st.acked == before.acked && old(fs.refused) <= fs.refused
        invariant forall i :: 0 <= i < |reports| ==> Accounts(reports[i], before.segs[i].base, before.segs[i])
      {
        BasesAscendNow();
        if all[k] == top {
          continue;
        }
        var one;
        ghost var i;
        ghost var now := st;
        one, i := Compact(all[k]);
        OwnBase(now, top, all[k], i, one);
        if one.Err? {
          return reports, Some(one.error);
        }
        reports := reports + [one.value];
      }
    }


    lemma CachedWithout(cache: map<nat, Segment>, segs: seq<Seg>, live: map<string, nat>, base: nat)
      requires Cached(cache, segs, live)
      ensures Cached(cache - {base}, segs, live) && (cache - {base}).Values <= cache.Values
    {
      hide Handle;
    }

    /** After the swap every other segment's handle is still good, and the replaced one is forgotten. */
    lemma SwappedConsistent(before: State, i: nat, tmp: string)
      requires Tracked() && i + 1 < |before.segs| && before.up && before.named && Inv(before) && Swappable(before, i, tmp)
      requires st == AfterSyncDirectory(AfterSwap(before, i, tmp))
      requires bases == BasesOf(before.segs) && active !in sealed.Values && before.segs[i].base !in sealed
      requires Handle(active, Active(before), before.disk.live)
      requires Cached(sealed, before.segs[..|before.segs| - 1], before.disk.live)
      ensures Consistent()
    {
      hide TracksFrom, Inv, SegmentName, ParseSegmentName, Segment.Settled, EncodeAll, Compacted;
      ParsedNames(before);
    }

    /** What the append path needs to know of a consistent log. */
    lemma ActiveFacts()
      requires Consistent()
      ensures st.segs != [] && active.recs == Last(st.segs).recs
      ensures active.size == |EncodeAll(Last(st.segs).recs)| && active.maxBytes == cfg.segment.Limit()
      ensures active.IsFull() ==> active.recs != []
      ensures Appending.Next(st.segs) == |st.hist| && st.acked <= |st.hist|
    {
      hide EncodeAll, SegmentName, TracksFrom, Cached, Inv;
      ActiveIsValid();
      EmptyHasNoBytes();
      WithinHistory(st);
    }
  }

  /** `after` has `events` as if appended one call at a time, at the next offsets, up to the first refused. */
  ghost predicate AppendedTo(before: State, after: State, limit: nat, events: seq<Event>,
                             offsets: seq<nat>, err: Option<Error>) {
    var k := Accepted(events);
    && before.segs != []
    && after.segs == AppendEach(before.segs, events, limit)
    && after.hist == before.hist + events[..k]
    && offsets == Range(|before.hist|, k)
    && err == (if k == |events| then None else Some(Refused(Reason(events[k]))))
  }

  /** Which segment `base` was taken for, and with what result. */
  ghost predicate Answered(s: State, top: nat, base: nat, i: nat, r: Result<Report, Error>) {
    && (base == top <==> r == Err(ActiveSegment))
    && (base < top ==> i + 1 < |s.segs| && s.segs[i].base <= base < End(s, i))
    && (r == Err(NotFound) <==>
          || base > top
          || (base < top && r.Err? && !r.error.Io? && i < |s.segs| && Lowest(Compacted(s.segs[i].recs)) < base))
    && (r.Err? ==> r.error == ActiveSegment || r.error == NotFound || r.error.Io?)
    && (r.Err? && base < top && i < |s.segs| && s.segs[i].base == base ==> r.error.Io?)
    && (r.Ok? ==> base < top && i < |s.segs| && Accounts(r.value, base, s.segs[i]))
  }

  lemma WhichSegment(s: State, top: nat, base: nat, i: nat, r: Result<Report, Error>)
    requires Answered(s, top, base, i, r)
    ensures base < top ==> i + 1 < |s.segs| && s.segs[i].base <= base < End(s, i)
    ensures r.Ok? ==> base < top
  {
    hide Compacted, Accounts, Lowest;
  }

  /** No handle is given up but that of a segment that was rewritten. */
  ghost predicate StillOpen(was: map<nat, Segment>, now: map<nat, Segment>, base: nat, before: nat, after: nat) {
    forall b :: b in was && (b != base || after == before) ==> b in now && now[b] == was[b]
  }

  lemma OwnBase(s: State, top: nat, base: nat, i: nat, r: Result<Report, Error>)
    requires Answered(s, top, base, i, r) && base < top && i < |s.segs| && s.segs[i].base == base
    ensures i + 1 < |s.segs| && !Misplaced(s, i, base)
    ensures if r.Ok? then Accounts(r.value, base, s.segs[i]) else r.error.Io?
  {
    hide Compacted, Accounts;
  }

  /** Nothing is rewritten when there is nothing to drop, and cursors are told when there was. */
  ghost predicate DroppedAny(before: State, after: State, i: nat, was: nat, generation: nat) {
    && i < |before.segs|
    && if Compacted(before.segs[i].recs) == before.segs[i].recs then after == before && generation == was else generation == was + 1
  }

  /** Nothing done needlessly, and nothing left lying about. */
  ghost predicate LeftTidy(before: State, after: State, base: nat, i: nat, r: Result<Report, Error>,
                           was: nat, generation: nat, refusals: nat, now: nat) {
    && (r.Ok? ==> DroppedAny(before, after, i, was, generation))
    && (r == Err(NotFound) && before.segs != [] && base < Active(before).base ==> LeftNothing(after.disk, SegmentName(base), refusals, now))
  }

  /** The file written aside for `name` is gone, unless the disk refused to remove it. */
  ghost predicate LeftNothing(d: Disk, name: string, before: nat, now: nat) {
    name + COMPACTING_SUFFIX !in d.live || now > before
  }

  /** Segments were left behind as soon as they held `size` bytes, and no new one without a record to go in it. */
  ghost predicate RolledInTime(before: seq<Seg>, after: seq<Seg>, size: nat, events: seq<Event>, err: Option<Error>) {
    && RollsAt(before, after, size)
    && (err.None? && events != [] ==> Last(after).recs != [])
    && (err.Some? ==> after != [] && |EncodeAll(Last(after).recs)| < size)
  }

  lemma AppendedRolls(before: State, after: State, cfg: Config, events: seq<Event>, offsets: seq<nat>, err: Option<Error>)
    requires AppendedTo(before, after, cfg.segment.Limit(), events, offsets, err)
    ensures RolledInTime(before.segs, after.segs, SegmentBytes(cfg), events, err)
  {
    hide AppendEach, RollsAt, EncodeAll, Range, Accepted;
    RollsWhenFull(before.segs, events, cfg.segment.Limit());
  }

  lemma SameAppended(before: State, mid: State, after: State, limit: nat, events: seq<Event>, offsets: seq<nat>)
    requires AppendedTo(before, mid, limit, events, offsets, None)
    requires after.segs == mid.segs && after.hist == mid.hist
    ensures AppendedTo(before, after, limit, events, offsets, None)
  {
  }

  /** The append loop's invariant, `d` events in. */
  ghost predicate Halfway(before: State, now: State, limit: nat, events: seq<Event>, d: nat, offsets: seq<nat>) {
    && d <= |events| && before.segs != [] && now.segs != []
    && AppendEach(now.segs, events[d..], limit) == AppendEach(before.segs, events, limit)
    && Accepted(events) == d + Accepted(events[d..])
    && now.hist == before.hist + events[..d]
    && offsets == Range(|before.hist|, d)
  }

  lemma NotBegun(s: State, limit: nat, events: seq<Event>)
    requires s.segs != []
    ensures Halfway(s, s, limit, events, 0, [])
  {
    hide AppendEach, Accepted;
    assert events[0..] == events && s.hist + events[..0] == s.hist;
  }

  lemma Finished(before: State, now: State, limit: nat, events: seq<Event>, offsets: seq<nat>)
    requires Halfway(before, now, limit, events, |events|, offsets)
    ensures AppendedTo(before, now, limit, events, offsets, None)
  {
    assert events[|events|..] == [];
    NoMore(now.segs, limit);
    hide AppendEach, Accepted;
  }

  lemma NoMore(segs: seq<Seg>, limit: nat)
    requires segs != []
    ensures AppendEach(segs, [], limit) == segs && Accepted([]) == 0
  {
  }

  lemma OneTurn(before: State, mid: State, now: State, limit: nat, events: seq<Event>, d: nat,
                e: nat, offsets: seq<nat>, n: nat, err: Option<Error>)
    requires e == d + n && d <= |events| && n <= |events[d..]|
    requires Halfway(before, mid, limit, events, d, offsets)
    requires now.segs != [] && now.hist == mid.hist + events[d..][..n]
    requires err.Some? ==>
               && now.segs == AppendEach(mid.segs, events[d..], limit)
               && Accepted(events[d..]) == n < |events[d..]| && err == Some(Refused(Reason(events[d..][n])))
    requires err.None? ==>
               && AppendEach(now.segs, events[d..][n..], limit) == AppendEach(mid.segs, events[d..], limit)
               && Accepted(events[d..]) == n + Accepted(events[d..][n..])
    ensures err.Some? ==> AppendedTo(before, now, limit, events, offsets + Range(|mid.hist|, n), err)
    ensures err.None? ==> Halfway(before, now, limit, events, e, offsets + Range(|mid.hist|, n))
  {
    hide AppendEach, Accepted, Range;
    RangeGrows(|before.hist|, d, n);
    assert events[..d] + events[d..][..n] == events[..d + n];
    assert events[d..][n..] == events[d + n..];
  }

  lemma ParsedNames(s: State)
    requires Inv(s)
    ensures forall i :: 0 <= i < |s.segs| ==> ParseSegmentName(SegmentName(s.segs[i].base)).Some?
    ensures forall i, j :: 0 <= i < j < |s.segs| ==> SegmentName(s.segs[i].base) != SegmentName(s.segs[j].base)
  {
    hide Tiled, Stored, SegmentName, ParseSegmentName;
    SegmentNamesAreDistinct(s);
  }

  /** An operation that leaves everything but temporary files as they are. */
  ghost predicate NobodyMinds(d: Disk, e: Disk) {
    Keeps(d, e, TheLog) && Keeps(d, e, TheCommits) && Keeps(d, e, TheSnapshots)
  }

  /** `node` is the temporary file named `tmp`, and no other entry leads to it. */
  ghost predicate Aside(d: Disk, tmp: string, node: nat) {
    && tmp in d.live && Temporary(tmp) && d.live[tmp] == node && node < |d.inodes|
    && (forall name :: name in d.live && name != tmp ==> d.live[name] != node)
    && (forall name :: name in d.durable ==> d.durable[name] != node)
  }

  lemma AsideIsPrivate(d: Disk, tmp: string, node: nat, o: Owner)
    requires Aside(d, tmp, node)
    ensures Private(d, node, o)
  {
    hide ParseSegmentName, ParseSnapshotName, Temporary;
  }

  lemma ChangingAside(d: Disk, tmp: string, node: nat, n: Inode)
    requires Aside(d, tmp, node)
    ensures NobodyMinds(d, d.(inodes := d.inodes[node := n])) && Aside(d.(inodes := d.inodes[node := n]), tmp, node)
  {
    hide Belongs, Temporary, Keeps, Private;
    var e := d.(inodes := d.inodes[node := n]);
    forall o ensures Keeps(d, e, o) {
      AsideIsPrivate(d, tmp, node, o);
      BytesKeep(d, node, n, o);
    }
  }

  lemma AppendingAside(d: Disk, tmp: string, node: nat, p: bytes)
    requires Aside(d, tmp, node)
    ensures NobodyMinds(d, Appended(d, node, p)) && Aside(Appended(d, node, p), tmp, node)
  {
    hide NobodyMinds, Temporary;
    ChangingAside(d, tmp, node, d.inodes[node].(data := d.inodes[node].data + p));
  }

  lemma SyncingAside(d: Disk, tmp: string, node: nat)
    requires Aside(d, tmp, node)
    ensures NobodyMinds(d, FileSynced(d, node)) && Aside(FileSynced(d, node), tmp, node)
  {
    hide NobodyMinds, Temporary;
    ChangingAside(d, tmp, node, d.inodes[node].(durable := d.inodes[node].data));
  }

  lemma ReadyToSwap(s: State, i: nat, tmp: string, node: nat)
    requires i < |s.segs| && Aside(s.disk, tmp, node)
    requires Holds(s.disk, node, EncodeAll(Compacted(s.segs[i].recs)), EncodeAll(Compacted(s.segs[i].recs)))
    ensures Swappable(s, i, tmp)
  {
    hide EncodeAll, Compacted, ParseSegmentName, Temporary;
    TemporaryIsNothingElse(tmp);
  }

  lemma CreatingAside(d: Disk, tmp: string)
    requires Sound(d) && Temporary(tmp)
    ensures NobodyMinds(d, Created(d, tmp)) && Aside(Created(d, tmp), tmp, |d.inodes|)
  {
    hide ParseSegmentName, ParseSnapshotName, Temporary, Keeps;
    forall o ensures Keeps(d, Created(d, tmp), o) {
      CreatedKeeps(d, tmp, o);
    }
  }

  lemma RemovingAside(d: Disk, tmp: string)
    requires Temporary(tmp)
    ensures NobodyMinds(d, Removed(d, tmp))
  {
    hide ParseSegmentName, ParseSnapshotName, Temporary, Keeps;
    forall o ensures Keeps(d, Removed(d, tmp), o) {
      RemovedKeeps(d, tmp, o);
    }
  }

  lemma SameDisk(d: Disk)
    ensures NobodyMinds(d, d)
  {
    hide Keeps;
    forall o ensures Keeps(d, d, o) {
      SameKeeps(d, o);
    }
  }

  /** The least offset of an ascending list, and beyond every offset if it is empty. */
  function Lowest(rs: seq<Rec>): nat {
    if rs == [] then TWO64 else rs[0].offset
  }

  lemma LowestAscends(base: nat, rs: seq<Rec>)
    requires Ascending(base, rs) && rs != []
    ensures Lowest(rs) >= base
  {
  }

  /** `Compact(base)` would publish segment `i`'s survivors under a base that is not the segment's. */
  ghost predicate Misplaced(s: State, i: nat, base: nat) {
    && i < |s.segs| && s.segs[i].base < base
    && Compacted(s.segs[i].recs) != s.segs[i].recs && Lowest(Compacted(s.segs[i].recs)) >= base
  }

  /** Segment `i` is as it was, and beside it is another that begins inside it, holding its survivors. */
  ghost predicate Overlapping(d: Disk, s: State, i: nat, base: nat) {
    && i < |s.segs| && s.segs[i].base < base < End(s, i) && base < TWO64
    && SegmentName(base) in d.live
    && ReadBack(d, s.segs[i].base) == s.segs[i].recs
    && ReadBack(d, base) == Compacted(s.segs[i].recs)
  }

  lemma SameOverlap(d: Disk, s: State, t: State, i: nat, base: nat)
    requires s.segs == t.segs && s.hist == t.hist
    ensures Overlapping(d, s, i, base) <==> Overlapping(d, t, i, base)
  {
    hide SegmentName, ReadBack, Compacted;
  }

  lemma RenamedApart(s: State, i: nat, tmp: string, base: nat)
    requires Inv(s) && i + 1 < |s.segs| && s.segs[i].base <= base < End(s, i)
    requires Swappable(s, i, tmp) && Ascending(base, Compacted(s.segs[i].recs))
    ensures base != s.segs[i].base ==> Overlapping(Renamed(s.disk, tmp, SegmentName(base)), s, i, base)
  {
    hide Inv, EncodeAll, SegmentName, ParseSegmentName, Temporary, Compacted, Scan, Ascending, Unframed;
    FilesReadBack(s, i);
    HasName(s, i);
    UnframedZeros(0);
    assert Zeros(0) == [] && EncodeAll(Compacted(s.segs[i].recs)) + [] == EncodeAll(Compacted(s.segs[i].recs));
    ScanExact(base, Compacted(s.segs[i].recs), []);
    WithinOffsets(s, i, base);
    ParseSegmentNameOfName(base);
    ParseSegmentNameOfName(s.segs[i].base);
  }

  lemma SealedRecs(s: State, i: nat)
    requires Inv(s) && i + 1 < |s.segs|
    ensures Ascending(s.segs[i].base, s.segs[i].recs) && s.segs[i].recs != []
  {
    hide Stored, Covers, AllFramable, ActiveTiled;
    assert SealedTiled(s, i);
    VersionEnds(s.segs[i].recs, s.hist, s.segs[i].base, End(s, i));
  }

  lemma HasName(s: State, i: nat)
    requires Inv(s) && i < |s.segs|
    ensures SegmentName(s.segs[i].base) in s.disk.live
  {
    hide Tiled;
    NamesPresent(s, i);
  }

  lemma WithinOffsets(s: State, i: nat, off: nat)
    requires Inv(s) && i < |s.segs| && s.segs[i].base <= off < End(s, i)
    ensures off < TWO64 && s.segs[i].base < TWO64
  {
    hide Stored, SealedTiled, ActiveTiled, AllFramable;
    BasesFit(s);
  }

  lemma AscendingBases(s: State)
    requires Inv(s)
    ensures forall i, j :: 0 <= i < j < |s.segs| ==> s.segs[i].base < s.segs[j].base
  {
    hide Stored, Tiled;
    BasesFit(s);
  }

  lemma ListedBase(s: State, base: nat)
    requires Inv(s) && base < TWO64 && SegmentName(base) in s.disk.live
    ensures base in BasesOf(s.segs)
  {
    hide Tiled, EncodeAll, SegmentName, ParseSegmentName, SealedStored, ActiveFiled, ActiveHolds, Unframed;
    ParseSegmentNameOfName(base);
    assert HasBase(s.segs, |s.segs|, ParseSegmentName(SegmentName(base)).value);
    var k :| 0 <= k < |s.segs| && s.segs[k].base == base;
    assert BasesOf(s.segs)[k] == base;
  }

  lemma NotABase(s: State, i: nat, base: nat)
    requires Inv(s) && i < |s.segs| && s.segs[i].base < base < End(s, i)
    ensures base !in BasesOf(s.segs)
  {
    hide Inv;
    AscendingBases(s);
    WithinHistory(s);
    ActiveBaseWithin(s);
  }

  lemma ActiveBaseWithin(s: State)
    requires Inv(s) && s.segs != []
    ensures Active(s).base <= |s.hist|
  {
    hide Stored, SealedTiled, AllFramable;
  }

  lemma SyncedStillOverlaps(d: Disk, s: State, i: nat, base: nat)
    requires Overlapping(d, s, i, base)
    ensures Overlapping(DirSynced(d), s, i, base)
  {
    hide SegmentName, Scan, Compacted;
  }

  lemma SegmentHolding(s: State, off: nat) returns (i: nat)
    requires Inv(s) && s.segs != [] && off < |s.hist|
    ensures i < |s.segs| && s.segs[i].base <= off < End(s, i)
  {
    hide Stored, Tiled;
    i := SegmentOf(s, off, |s.segs|);
  }

  /**
   * At every moment from `from` on, a cut of any shape leaves segment `i` as it would have
   * left it before, or that compacted; and what the segment showed before is one of the two.
   */
  ghost predicate SwapMoments(before: State, i: nat, past: seq<Disk>, from: nat) {
    && i < |before.segs|
    && forall j, shape :: from <= j < |past| ==>
         var was := ReadBack(PowerCut(before.disk, shape), before.segs[i].base);
         && OneSwap(was, before.segs[i].recs)
         && OneSwap(was, ReadBack(PowerCut(past[j], shape), before.segs[i].base))
  }

  lemma MomentsOfARun(before: State, began: seq<Step>, past: seq<Disk>, longer: seq<Disk>, more: seq<Step>, after: State, i: nat)
    requires Tracks(past, began, before) && Tracks(longer, more, after) && began <= more
    requires before.named && i + 1 < |before.segs|
    ensures |past| <= |longer| && SwapMoments(before, i, longer, |past|)
  {
    hide Tracks, Inv, Mingled, OneSwap, ReadBack, PowerCut, Enabled, Apply;
    TracksLegal(past, began, before);
    TracksLegal(longer, more, after);
    TracksInvariant(past, began, before);
    ReachableMingled(began);
    forall j, shape | |past| <= j < |longer|
      ensures var was := ReadBack(PowerCut(before.disk, shape), before.segs[i].base);
              && OneSwap(was, before.segs[i].recs)
              && OneSwap(was, ReadBack(PowerCut(longer[j], shape), before.segs[i].base))
    {
      EveryMomentIsReachable(longer, more, after, j);
      var rest := more[..j][|began|..];
      assert more[..j] == began + rest;
      RunInTwo(INIT, began, rest);
      OldOrCompactedLater(before, rest, i, shape);
    }
  }

  /** What a compaction says it did. */
  datatype Report = Report(base: nat, kept: nat, dropped: nat, before: nat, after: nat)

  /** `rep` accounts for every record and byte of `seg`. */
  ghost predicate Accounts(rep: Report, base: nat, seg: Seg) {
    && rep.base == base
    && rep.kept == |Compacted(seg.recs)| && rep.kept + rep.dropped == |seg.recs|
    && rep.before == |EncodeAll(seg.recs)| && rep.after == |EncodeAll(Compacted(seg.recs))|
  }

  /** Segment `i` has only its newest record per key, and nothing else that the state means is different. */
  ghost predicate CompactedAt(before: State, after: State, i: nat) {
    && i < |before.segs|
    && after.segs == before.segs[i := Seg(before.segs[i].base, Compacted(before.segs[i].recs))]
    && after.hist == before.hist && after.acked == before.acked && after.synced == before.synced && after.named == before.named
  }

  /** The first `n` segments compacted. */
  function CompactedUpTo(segs: seq<Seg>, n: nat): (r: seq<Seg>)
    requires n <= |segs|
    ensures |r| == |segs|
    ensures forall i :: 0 <= i < n ==> r[i] == Seg(segs[i].base, Compacted(segs[i].recs))
    ensures forall i :: n <= i < |segs| ==> r[i] == segs[i]
  {
    seq(|segs|, i requires 0 <= i < |segs| => if i < n then Seg(segs[i].base, Compacted(segs[i].recs)) else segs[i])
  }

  /** Every record of the log, in order. */
  function AllRecs(segs: seq<Seg>): seq<Rec> {
    if segs == [] then [] else AllRecs(segs[..|segs| - 1]) + segs[|segs| - 1].recs
  }

  /**
   * Compacting any of the segments preserves what the log means: the newest record for
   * every key, over the whole log, is the same record at the same offset, and each
   * segment ends where it did.
   */
  lemma {:induction false} CompactingKeepsNewest(segs: seq<Seg>, n: nat, key: bytes)
    requires n <= |segs|
    ensures Newest(AllRecs(CompactedUpTo(segs, n)), key) == Newest(AllRecs(segs), key)
    ensures forall i :: 0 <= i < |segs| ==>
              NextOf(segs[i].base, CompactedUpTo(segs, n)[i].recs) == NextOf(segs[i].base, segs[i].recs)
    decreases |segs|
  {
    hide Newest, Compacted;
    if segs != [] {
      var m := |segs| - 1;
      var init, all := segs[..m], CompactedUpTo(segs, n);
      assert all[..m] == CompactedUpTo(init, if n <= m then n else m);
      CompactingKeepsNewest(init, if n <= m then n else m, key);
      NewestOfConcat(AllRecs(init), segs[m].recs, key);
      NewestOfConcat(AllRecs(all[..m]), all[m].recs, key);
      NewestSurvives(segs[m].recs, key);
      forall i | 0 <= i < |segs| ensures NextOf(segs[i].base, all[i].recs) == NextOf(segs[i].base, segs[i].recs) {
        LastSurvives(segs[i].base, segs[i].recs);
      }
    }
  }

  /** A second pass finds nothing to drop. */
  lemma CompactingTwice(segs: seq<Seg>, n: nat)
    requires n <= |segs|
    ensures CompactedUpTo(CompactedUpTo(segs, n), n) == CompactedUpTo(segs, n)
  {
    forall i | 0 <= i < n ensures Compacted(Compacted(segs[i].recs)) == Compacted(segs[i].recs) {
      CompactedTwice(segs[i].recs);
    }
  }

  /** Whatever was open on one of the segments still is, under the same base. */
  ghost predicate Carried(bases: seq<nat>, handles: map<nat, Segment>, after: seq<nat>, now: map<nat, Segment>) {
    && bases <= after
    && forall b :: b in bases && b in handles ==> b in now && now[b] == handles[b]
  }

  lemma NewBase(s: State)
    requires Inv(s) && s.segs != [] && Active(s).recs != []
    ensures |s.hist| !in BasesOf(s.segs)
  {
    hide Stored, SealedTiled, AllFramable;
    BasesFit(s);
    StampedFrom(s.hist, Active(s).base);
  }

  /** The same entries for every name that is a segment's. */
  ghost predicate SameSegmentEntries(a: map<string, nat>, b: map<string, nat>) {
    forall name :: ParseSegmentName(name).Some? ==> SameEntry(a, b, name)
  }

  lemma KeepNext(base: nat, rs: seq<Rec>, k: nat, offsets: set<nat>)
    requires Ascending(base, rs) && k < |rs|
    ensures KeepIn(rs[..k + 1], offsets) == KeepIn(rs[..k], offsets) + if rs[k].offset in offsets then [rs[k]] else []
    ensures NextOf(base, KeepIn(rs[..k], offsets)) <= rs[k].offset
  {
    assert rs[..k + 1][..k] == rs[..k];
    var kept := KeepIn(rs[..k], offsets);
    if kept != [] {
      KeepInSurvives(rs[..k], offsets, kept[|kept| - 1]);
    }
  }

  /** Records kept so far are a prefix of those kept in the end. */
  lemma {:induction false} KeptIsPrefix(rs: seq<Rec>, k: nat, offsets: set<nat>)
    requires k <= |rs|
    ensures KeepIn(rs[..k], offsets) <= KeepIn(rs, offsets)
    decreases |rs|
  {
    if k == |rs| {
      assert rs[..k] == rs;
    } else {
      assert rs[..|rs| - 1][..k] == rs[..k];
      KeptIsPrefix(rs[..|rs| - 1], k, offsets);
    }
  }

  /** The first record to be copied is the only one that can lie below where the copy begins. */
  lemma FirstKept(base: nat, rs: seq<Rec>, k: nat, offsets: set<nat>, from: nat)
    requires Ascending(base, rs) && k < |rs| && rs[k].offset in offsets
    requires rs[k].offset < NextOf(from, KeepIn(rs[..k], offsets))
    ensures Lowest(KeepIn(rs, offsets)) < from
  {
    hide KeepIn, Ascending;
    KeepNext(base, rs, k, offsets);
    KeptIsPrefix(rs, k + 1, offsets);
    assert KeepIn(rs[..k], offsets) == [];
    assert KeepIn(rs[..k + 1], offsets)[0] == rs[k];
  }

  lemma NothingNewest()
    ensures NewestMap([]) == map[]
  {
  }

  lemma NewestPush(rs: seq<Rec>, i: nat)
    requires i < |rs|
    ensures NewestMap(rs[..i + 1]) == NewestMap(rs[..i])[rs[i].event.key := rs[i].offset]
  {
    assert rs[..i + 1][..i] == rs[..i];
  }

  /** Gone from `rs`, and superseded there by a later record for its key. */
  ghost predicate Dropped(rs: seq<Rec>, e: Event, off: nat) {
    && (forall j :: 0 <= j < |rs| ==> rs[j].offset != off)
    && exists j :: 0 <= j < |rs| && rs[j].offset > off && rs[j].event.key == e.key
  }

  /** The segment that holds the offset still has its record. */
  ghost predicate Standing(s: State, off: nat) {
    && off < |s.hist|
    && exists i :: 0 <= i < |s.segs| && s.segs[i].base <= off < End(s, i) && Rec(off, s.hist[off]) in s.segs[i].recs
  }

  lemma StandsOrNot(s: State, i: nat, off: nat)
    requires Inv(s) && i < |s.segs| && s.segs[i].base <= off < End(s, i)
    ensures var rs := s.segs[i].recs;
            var j := Below(rs, off);
            Standing(s, off) <==> j < |rs| && rs[j].offset == off
  {
    hide Stored, AllFramable, Version, Stamp, SealedTiled;
    PresentOrDropped(s, i, off);
    BasesFit(s);
    var rs := s.segs[i].recs;
    if Standing(s, off) {
      var k :| 0 <= k < |s.segs| && s.segs[k].base <= off < End(s, k) && Rec(off, s.hist[off]) in s.segs[k].recs;
      OneStretch(s, i, k, off);
    }
  }

  lemma OneStretch(s: State, i: nat, k: nat, off: nat)
    requires Inv(s) && i < |s.segs| && k < |s.segs|
    requires s.segs[i].base <= off < End(s, i) && s.segs[k].base <= off < End(s, k)
    ensures i == k
  {
    hide Tiled, Stored;
    AscendingBases(s);
  }

  /** An offset of the history is in its segment, with its event, or was dropped by compaction. */
  lemma PresentOrDropped(s: State, i: nat, off: nat)
    requires Inv(s) && i < |s.segs| && s.segs[i].base <= off < End(s, i)
    ensures off < |s.hist|
    ensures var rs := s.segs[i].recs;
            var j := Below(rs, off);
            if j < |rs| && rs[j].offset == off then rs[j].event == s.hist[off]
            else i < |s.segs| - 1 && Dropped(rs, s.hist[off], off)
  {
    hide Stored, AllFramable, Version, Stamp;
    var rs := s.segs[i].recs;
    BasesFit(s);
    if i + 1 < |s.segs| {
      assert SealedTiled(s, i);
      VersionLookup(rs, s.hist, s.segs[i].base, End(s, i), off);
    } else {
      StampedFrom(s.hist, s.segs[i].base);
      BelowIs(rs, off, off - s.segs[i].base);
    }
  }

  lemma VersionLookup(rs: seq<Rec>, h: seq<Event>, lo: nat, hi: nat, off: nat)
    requires Version(rs, h, lo, hi) && lo <= off < hi
    ensures var j := Below(rs, off);
            if j < |rs| && rs[j].offset == off then rs[j].event == h[off] else Dropped(rs, h[off], off)
  {
    hide Covers, Ascending;
    BelowSplits(lo, rs, off);
    assert Covers(rs, h[off], off);
    var k := CoveredBy(rs, h[off], off);
    var j := Below(rs, off);
    if j == |rs| || rs[j].offset != off {
      forall m | 0 <= m < |rs| ensures rs[m].offset != off {
        if m >= j {
          SameOrAfter(lo, rs, j, m);
        }
      }
    }
  }

  lemma SameOrAfter(base: nat, rs: seq<Rec>, i: nat, j: nat)
    requires Ascending(base, rs) && i <= j < |rs|
    ensures rs[i].offset <= rs[j].offset
  {
  }

  lemma SealedScan(s: State, i: nat)
    requires Inv(s) && i + 1 < |s.segs|
    ensures s.segs[i].base < TWO64 && Ascending(s.segs[i].base, s.segs[i].recs)
    ensures SegmentName(s.segs[i].base) in s.disk.live && s.disk.live[SegmentName(s.segs[i].base)] < |s.disk.inodes|
    ensures var f := Scan(s.disk.inodes[s.disk.live[SegmentName(s.segs[i].base)]].data, s.segs[i].base);
            f.records == s.segs[i].recs && f.discarded == 0 && !f.torn && !f.corrupt
  {
    hide EncodeAll, SegmentName, ParseSegmentName, HasBase, AllFramable, Covers, Scan, Unframed, ActiveTiled;
    BasesFit(s);
    assert SealedTiled(s, i) && SealedStored(s, i);
    UnframedZeros(0);
    assert Zeros(0) == [] && EncodeAll(s.segs[i].recs) + [] == EncodeAll(s.segs[i].recs);
    ScanExact(s.segs[i].base, s.segs[i].recs, []);
  }

  /** The bases among a directory's names. */
  method SegmentBases(names: seq<string>) returns (bases: seq<nat>)
    requires Sorted(names)
    ensures Listed(names, bases, ParseSegmentName, SegmentName)
  {
    hide SegmentName, ParseSegmentName, Before;
    forall name | ParseSegmentName(name).Some?
      ensures ParseSegmentName(name).value < TWO64 && SegmentName(ParseSegmentName(name).value) == name
    {
      NameOfParsedSegment(name);
    }
    forall a: nat, b: nat | a < TWO64 && b < TWO64 && Before(SegmentName(a), SegmentName(b)) ensures a < b {
      ListingAscends(a, b);
    }
    bases := OffsetsIn(names, ParseSegmentName, SegmentName);
  }

  /** What a listing of an undamaged log names is exactly its segments. */
  lemma BasesListed(s: State, names: seq<string>, bases: seq<nat>)
    requires Inv(s)
    requires forall name :: name in names <==> name in s.disk.live
    requires Listed(names, bases, ParseSegmentName, SegmentName)
    ensures bases == BasesOf(s.segs)
  {
    hide Tiled, SegmentName, ParseSegmentName, SealedStored, ActiveFiled, ActiveHolds, Unframed, EncodeAll;
    BasesFit(s);
    SegmentNamesAreDistinct(s);
    NamesAreDistinct();
    var own := BasesOf(s.segs);
    forall b ensures b in bases <==> b in own {
      if b in bases {
        assert HasBase(s.segs, |s.segs|, ParseSegmentName(SegmentName(b)).value);
        var i :| 0 <= i < |s.segs| && s.segs[i].base == b;
        assert own[i] == b;
      }
      if b in own {
        var i :| 0 <= i < |own| && own[i] == b;
        assert SegmentName(s.segs[i].base) in s.disk.live;
      }
    }
    RisingIsUnique(bases, own);
  }

  lemma FirstState(s: State)
    requires Inv(s) && s.segs == []
    ensures |s.kept| == 0 && s.hist == []
    ensures var t := AfterSyncDirectory(AfterCreate(s));
            && t.segs == [Seg(0, [])] && t.hist == [] && t.synced == 0 && t.named && t.up
            && BasesOf(t.segs) == [0]
  {
    hide Stored, SegmentName;
  }

  /** Opening the active segment of a log that was not closed. */
  method Resume(fs: FS, cfg: Config, base: nat, ghost before: State, ghost origin: seq<Step>, ghost soFar: seq<Step>)
    returns (r: Result<Segment, Error>, f: Found, ghost after: State, ghost steps: seq<Step>)
    requires TracksFrom(origin, fs.past, soFar, before) && before.disk == fs.View() && !before.up && before.named
    requires before.segs != [] && base == Active(before).base
    modifies fs
    ensures Blames(old(fs.refused), fs.refused, ErrorOf(r))
    ensures TracksFrom(origin, fs.past, steps, after) && after.disk == fs.View()
    ensures r.Err? ==> r.error.Io? && after == before
    ensures r.Ok? ==>
              && HasActiveFile(before) && |EncodeAll(Active(before).recs)| <= |before.disk.inodes[ActiveNode(before)].data|
              && after == AfterReopen(before) && fresh(r.value) && r.value.fs == fs && r.value.Settled() && !r.value.sealed
              && r.value.base == base && r.value.recs == Active(before).recs && r.value.node == ActiveNode(before)
              && r.value.maxBytes == cfg.segment.Limit() && r.value.interval == cfg.segment.Interval()
              && f.records == Active(before).recs && f.valid == |EncodeAll(Active(before).recs)|
              && f.discarded == |before.tail| && f.next == |before.hist|
  {
    hide TracksFrom, EncodeAll, SegmentName, Inv, Enabled, Apply, Scan;
    TracksFromInvariant(origin, fs.past, soFar, before);
    SoundNow(before);
    MayReopen(before);
    MayIdle(before);
    RecoveryFinds(before);
    ActiveAscends(before);
    after, steps := before, soFar;
    r, f := Segment.OpenNamed(fs, SegmentName(base), base, cfg.segment, true);
    ghost var idle := Other(before.disk);
    SameKeeps(before.disk, TheLog);
    TracksFromStep(origin, old(fs.past), soFar, before, idle, before.disk);
    if r.Err? {
      steps := soFar + [idle];
      if |fs.past| > |old(fs.past)| + 1 {
        TracksFromStep(origin, old(fs.past) + [before.disk], soFar + [idle], before, idle, before.disk);
        steps := soFar + [idle] + [idle];
        assert fs.past == old(fs.past) + [before.disk] + [before.disk];
      }
      return;
    }
    TracksFromStep(origin, old(fs.past), soFar, before, Reopen, AfterReopen(before).disk);
    TracksFromStep(origin, old(fs.past) + [before.disk], soFar + [idle], before, Reopen, AfterReopen(before).disk);
    after := AfterReopen(before);
    if f.discarded == 0 {
      NothingToTruncate(before);
      steps := soFar + [Reopen];
    } else {
      steps := soFar + [idle] + [Reopen];
      assert old(fs.past) + [before.disk] + [after.disk] == old(fs.past) + [before.disk, after.disk];
    }
  }

  lemma ActiveAscends(s: State)
    requires Inv(s) && s.segs != []
    ensures Ascending(Active(s).base, Active(s).recs) && Active(s).base < TWO64
  {
    hide Stored, SealedTiled, Stamp, AllFramable, Ascending;
    BasesFit(s);
    StampedFrom(s.hist, Active(s).base);
    StampAlone(Active(s).base, s.hist[Active(s).base..]);
  }

  lemma SyncedWithin(s: State)
    requires Inv(s) && s.segs != []
    ensures s.synced <= |Active(s).recs|
    ensures HasActiveFile(s) && |EncodeAll(Active(s).recs)| <= |s.disk.inodes[ActiveNode(s)].data| ==>
              var t := AfterReopen(s);
              && t.segs == s.segs && t.hist == s.hist && t.acked == s.acked && t.synced == s.synced && t.named == s.named
              && t.up && t.disk.live == s.disk.live
  {
    hide Stored, SealedTiled, SegmentName, EncodeAll, AllFramable;
  }

  lemma NothingToTruncate(s: State)
    requires Inv(s) && s.segs != [] && s.tail == []
    requires HasActiveFile(s) && |EncodeAll(Active(s).recs)| <= |s.disk.inodes[ActiveNode(s)].data|
    ensures AfterReopen(s).disk == s.disk
  {
    hide Tiled, Filed, EncodeAll, SegmentName;
    var n := ActiveNode(s);
    assert s.disk.inodes[n].data[..|EncodeAll(Active(s).recs)|] == s.disk.inodes[n].data;
    assert s.disk.inodes[n := s.disk.inodes[n]] == s.disk.inodes;
  }

  lemma WithinHistory(s: State)
    requires Inv(s)
    ensures s.acked <= |s.hist|
  {
    hide Tiled, Stored;
    AckedWithin(s);
  }

  lemma NothingAppended(d: Disk, node: nat)
    requires node < |d.inodes|
    ensures Appended(d, node, []) == d
  {
    assert d.inodes[node].data + [] == d.inodes[node].data;
    assert d.inodes[node := d.inodes[node]] == d.inodes;
  }

  lemma WrittenState(s: State, events: seq<Event>)
    requires HasActiveFile(s) && Appending.Next(s.segs) == |s.hist|
    ensures AfterWrite(s, events).segs == Grown(s.segs, events)
    ensures AfterWrite(s, events).disk.live == s.disk.live
    ensures BasesOf(AfterWrite(s, events).segs) == BasesOf(s.segs)
    ensures AfterWrite(s, events).segs[..|s.segs| - 1] == s.segs[..|s.segs| - 1]
  {
    hide EncodeAll, SegmentName;
  }

  lemma DistinctBases(s: State)
    requires Inv(s)
    ensures forall i, j :: 0 <= i < j < |s.segs| ==> s.segs[i].base != s.segs[j].base
  {
    hide Tiled, Stored;
    BasesFit(s);
  }

  lemma SoundNow(s: State)
    requires Inv(s)
    ensures Sound(s.disk)
  {
    hide Inv;
    Basics(s);
  }

  lemma RolledState(s: State)
    requires s.segs != [] && |s.kept| == |s.segs|
    ensures var t := AfterSyncDirectory(AfterCreate(s));
            && t.segs == s.segs + [Seg(|s.hist|, [])] && t.hist == s.hist && t.acked == s.acked
            && t.synced == 0 && t.named && t.up
            && t.disk.live == s.disk.live[SegmentName(|s.hist|) := |s.disk.inodes|]
  {
    hide SegmentName;
  }

  /**
   * A run that shows it: three records in a sealed segment, the first superseded by the
   * third. Compacting at offset 1 publishes a second segment there; at offset 2 a survivor
   * lies below, so the copy is refused and nothing happens.
   */
  lemma CompactAtTheWrongOffset(a: Event, b: Event, c: Event)
    requires Framable(a) && Framable(b) && Framable(c) && a.key == c.key != b.key
    ensures var steps := [Durability.CreateSegment, SyncDirectory, Write([a, b, c]), SyncActive, Durability.CreateSegment, SyncDirectory];
            && Legal(INIT, steps)
            && var s := Run(INIT, steps);
               && s.up && s.named && s.segs == [Seg(0, [Rec(0, a), Rec(1, b), Rec(2, c)]), Seg(3, [])]
               && Misplaced(s, 0, 1) && !Misplaced(s, 0, 2)
  {
    hide Inv, Enabled, Apply, SegmentName, EncodeAll, Framable, Compacted;
    var events := [a, b, c];
    InitHolds();
    MayCreate(INIT);
    var created := AfterCreate(INIT);
    StepKeeps(INIT, Durability.CreateSegment);
    MaySyncDirectory(created);
    var named := AfterSyncDirectory(created);
    StepKeeps(created, SyncDirectory);
    MayWrite(named, events);
    var written := AfterWrite(named, events);
    StepKeeps(named, Write(events));
    MaySync(written);
    FourSteps(INIT, created, named, written, Durability.CreateSegment, SyncDirectory, Write(events), SyncActive);
    var synced := AfterSync(written);
    StepKeeps(written, SyncActive);
    var rs := [Rec(0, a), Rec(1, b), Rec(2, c)];
    assert Stamp(0, events) == rs && [] + rs == rs;
    MayCreate(synced);
    var rolled := AfterCreate(synced);
    StepKeeps(synced, Durability.CreateSegment);
    MaySyncDirectory(rolled);
    var first := [Durability.CreateSegment, SyncDirectory, Write(events), SyncActive];
    RunOneMore(INIT, first, Durability.CreateSegment);
    RunOneMore(INIT, first + [Durability.CreateSegment], SyncDirectory);
    assert first + [Durability.CreateSegment] + [SyncDirectory]
        == [Durability.CreateSegment, SyncDirectory, Write(events), SyncActive, Durability.CreateSegment, SyncDirectory];
    ThreeCompacted(a, b, c);
  }

  lemma ThreeCompacted(a: Event, b: Event, c: Event)
    requires a.key == c.key != b.key
    ensures Compacted([Rec(0, a), Rec(1, b), Rec(2, c)]) == [Rec(1, b), Rec(2, c)]
  {
    var rs := [Rec(0, a), Rec(1, b), Rec(2, c)];
    assert rs[1..] == [Rec(1, b), Rec(2, c)] && rs[1..][1..] == [Rec(2, c)] && rs[1..][1..][1..] == [];
    assert rs[1..][1].event.key == a.key;
    assert Compacted([Rec(2, c)]) == [Rec(2, c)];
    assert !KeyIn([Rec(2, c)], b.key);
  }
}
