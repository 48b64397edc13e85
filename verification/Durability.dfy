/**
 * The log as a machine whose steps are single filesystem operations, with a power cut
 * of any shape allowed between any two of them (log/log.go, log/compact.go and
 * log/recovery.go over sim/fs.go).
 *
 * A state is the disk together with what its bytes mean: the segments and their
 * records, the history they stand for, and how much of it was acknowledged. The
 * invariant says the two agree byte for byte; the theorems say what no run can lose.
 */
module Durability {
  import opened Wrappers
  import opened Bytes
  import opened Events
  import opened Records
  import opened Recovery
  import opened SparseIndex
  import opened Names
  import opened Disks
  import opened Segments
  import opened Compaction

  datatype Seg = Seg(base: nat, recs: seq<Rec>)

  datatype State = State(
    disk: Disk,
    segs: seq<Seg>,
    /** What each segment's durable directory entry leads to: `recs`, or what it was before a swap. */
    kept: seq<seq<Rec>>,
    /** The event assigned to each offset. */
    hist: seq<Event>,
    /** The tail when a sync last returned. */
    acked: nat,
    /** How many of the active segment's records are synced. */
    synced: nat,
    /** Whether the active segment's directory entry is durable. */
    named: bool,
    /** Whether a process has the log open. */
    up: bool,
    /** Bytes after the active segment's last whole record. */
    tail: bytes)

  datatype Step =
    | Write(events: seq<Event>)
    | ShortWrite(events: seq<Event>, stored: nat)
    | SyncActive
    | CreateSegment
    | SyncDirectory
    | Swap(i: nat, tmp: string)
    | Other(after: Disk)
    | Kill
    | Cut(shape: Shape)
    | Reopen

  const INIT: State := State(EMPTY, [], [], [], 0, 0, true, false, [])

  // ---- What a state means ----

  /** The offset just past segment `i`. */
  function End(s: State, i: nat): nat
    requires i < |s.segs|
  {
    if i + 1 < |s.segs| then s.segs[i + 1].base else |s.hist|
  }

  ghost predicate Covers(rs: seq<Rec>, e: Event, off: nat) {
    exists j :: 0 <= j < |rs| && rs[j].offset >= off && rs[j].event.key == e.key
  }

  /**
   * `rs` stands for offsets `[lo, hi)` of the history: nothing invented, and every offset
   * is there or is superseded by a later record for its key that is.
   */
  ghost predicate Version(rs: seq<Rec>, hist: seq<Event>, lo: nat, hi: nat) {
    && Ascending(lo, rs)
    && hi <= |hist|
    && (forall j :: 0 <= j < |rs| ==> rs[j].offset < hi && rs[j].event == hist[rs[j].offset])
    && (forall o {:trigger Covers(rs, hist[o], o)} :: lo <= o < hi ==> Covers(rs, hist[o], o))
  }

  ghost predicate AllFramable(events: seq<Event>) {
    forall i :: 0 <= i < |events| ==> Framable(events[i])
  }

  /** Segments tile the history; the active one is the history from its base on. */
  ghost predicate Tiled(s: State) {
    var n := |s.segs|;
    && |s.kept| == n
    && |s.hist| < TWO64 && AllFramable(s.hist)
    && (n == 0 ==> s.hist == [] && s.acked == 0 && s.named)
    && (n > 0 ==> s.segs[0].base == 0)
    && (forall i :: 0 <= i < n - 1 ==> SealedTiled(s, i))
    && (n > 0 ==> ActiveTiled(s))
  }

  ghost predicate SealedTiled(s: State, i: nat)
    requires i + 1 < |s.segs| == |s.kept|
  {
    && s.segs[i].base < End(s, i) <= |s.hist|
    && Version(s.segs[i].recs, s.hist, s.segs[i].base, End(s, i))
    && Version(s.kept[i], s.hist, s.segs[i].base, End(s, i))
  }

  ghost predicate ActiveTiled(s: State)
    requires |s.segs| > 0 && |s.kept| == |s.segs|
  {
    var n := |s.segs|;
    var active := s.segs[n - 1];
    && active.base <= |s.hist|
    && active.recs == Stamp(active.base, s.hist[active.base..])
    && s.synced <= |active.recs|
    && s.acked <= active.base + s.synced
    && (!s.named ==> active.recs == [])
    && (!s.named && n > 1 ==>
          s.segs[n - 2].base <= |s.hist| &&
          s.kept[n - 2] == Stamp(s.segs[n - 2].base, s.hist[s.segs[n - 2].base..]))
  }

  /** `m` holds exactly the names of the first `n` segments, and whatever is not a segment. */
  ghost predicate Entries(m: map<string, nat>, segs: seq<Seg>, n: nat)
    requires n <= |segs|
  {
    && (forall i :: 0 <= i < n ==> SegmentName(segs[i].base) in m)
    && (forall name :: name in m && ParseSegmentName(name).Some? ==> HasBase(segs, n, ParseSegmentName(name).value))
  }

  ghost predicate HasBase(segs: seq<Seg>, n: nat, base: nat)
    requires n <= |segs|
  {
    exists i :: 0 <= i < n && segs[i].base == base
  }

  predicate Holds(d: Disk, node: nat, data: bytes, durable: bytes) {
    node < |d.inodes| && d.inodes[node] == Inode(data, durable)
  }

  /** How many segments' directory entries are durable. */
  function Durable(s: State): nat {
    if s.named || s.segs == [] then |s.segs| else |s.segs| - 1
  }

  function Active(s: State): Seg
    requires s.segs != []
  {
    s.segs[|s.segs| - 1]
  }

  predicate HasActiveFile(s: State) {
    && s.segs != []
    && SegmentName(Active(s).base) in s.disk.live
    && s.disk.live[SegmentName(Active(s).base)] < |s.disk.inodes|
  }

  function ActiveNode(s: State): nat
    requires HasActiveFile(s)
  {
    s.disk.live[SegmentName(Active(s).base)]
  }

  /** Every byte of every segment file, as visible and as it will be after a power cut. */
  ghost predicate Stored(s: State) {
    && Filed(s)
    && Unframed(s.tail) && (s.up ==> s.tail == [])
    && (s.segs == [] ==> s.tail == [])
    && (s.segs != [] ==> ActiveHolds(s, EncodeAll(Active(s).recs) + s.tail))
  }

  /** The directories, and the bytes of every segment but the active one. */
  ghost predicate Filed(s: State) {
    var n := |s.segs|;
    && Sound(s.disk)
    && |s.kept| == n
    && Entries(s.disk.live, s.segs, n)
    && Entries(s.disk.durable, s.segs, Durable(s))
    && (forall i :: 0 <= i < n - 1 ==> SealedStored(s, i))
    && (n > 0 ==> ActiveFiled(s))
  }

  ghost predicate SealedStored(s: State, i: nat)
    requires i + 1 < |s.segs| == |s.kept|
    requires SegmentName(s.segs[i].base) in s.disk.live && SegmentName(s.segs[i].base) in s.disk.durable
  {
    var name := SegmentName(s.segs[i].base);
    && Holds(s.disk, s.disk.live[name], EncodeAll(s.segs[i].recs), EncodeAll(s.segs[i].recs))
    && Holds(s.disk, s.disk.durable[name], EncodeAll(s.kept[i]), EncodeAll(s.kept[i]))
  }

  /** The active file is the same in both directories, and no other segment's. */
  ghost predicate ActiveFiled(s: State)
    requires s.segs != []
    requires Entries(s.disk.live, s.segs, |s.segs|) && Entries(s.disk.durable, s.segs, Durable(s))
  {
    var n, name := |s.segs|, SegmentName(Active(s).base);
    && (s.named ==> s.disk.durable[name] == s.disk.live[name])
    && (forall i :: 0 <= i < n - 1 ==> s.disk.durable[SegmentName(s.segs[i].base)] != s.disk.live[name])
  }

  ghost predicate ActiveHolds(s: State, data: bytes)
    requires s.segs != []
  {
    && HasActiveFile(s)
    && s.synced <= |Active(s).recs|
    && Holds(s.disk, ActiveNode(s), data, EncodeAll(Active(s).recs[..s.synced]))
  }

  ghost predicate Inv(s: State) {
    Tiled(s) && Stored(s)
  }

  // ---- The steps ----

  function WithActive(s: State, rs: seq<Rec>): seq<Seg>
    requires s.segs != []
  {
    s.segs[|s.segs| - 1 := Seg(Active(s).base, rs)]
  }

  function EventsOf(rs: seq<Rec>): (es: seq<Event>)
    ensures |es| == |rs| && forall i :: 0 <= i < |es| ==> es[i] == rs[i].event
  {
    seq(|rs|, i requires 0 <= i < |rs| => rs[i].event)
  }

  /** The state with only the first `k` of the active segment's records, and `t` after them. */
  ghost function Shortened(s: State, k: nat, t: bytes): State
    requires s.segs != [] && k <= |Active(s).recs| && Active(s).base + k <= |s.hist|
  {
    s.(segs := WithActive(s, Active(s).recs[..k]), hist := s.hist[..Active(s).base + k], tail := t, up := false)
  }

  /** What the disk means to whoever opens it next: the active file is scanned. */
  ghost function Rescanned(s: State): State
    requires HasActiveFile(s)
  {
    var data := s.disk.inodes[ActiveNode(s)].data;
    var f := Scan(data, Active(s).base);
    if f.valid <= |data| && Active(s).base <= |s.hist| then
      s.(segs := WithActive(s, f.records),
         hist := s.hist[..Active(s).base] + EventsOf(f.records),
         tail := data[f.valid..], up := false)
    else s
  }

  /** The disk after a cut, read with the records that were there before it. */
  ghost function CutRaw(s: State, shape: Shape): State
    requires |s.kept| == |s.segs| && Durable(s) > 0
  {
    var n, m := |s.segs|, Durable(s);
    s.(disk := PowerCut(s.disk, shape),
       segs := seq(m, i requires 0 <= i < m => Seg(s.segs[i].base, if i < n - 1 then s.kept[i] else s.segs[i].recs)),
       kept := s.kept[..m],
       synced := if s.named then s.synced else |s.kept[n - 2]|,
       named := true, up := false)
  }

  ghost function CutState(s: State, shape: Shape): State
    requires |s.kept| == |s.segs|
  {
    if Durable(s) == 0 then INIT.(disk := PowerCut(s.disk, shape))
    else
      var raw := CutRaw(s, shape);
      if HasActiveFile(raw) then Rescanned(raw) else raw
  }

  /** An operation on files that are not segments. */
  ghost predicate SegmentsUntouched(a: Disk, b: Disk) {
    && |a.inodes| <= |b.inodes|
    && (forall name :: ParseSegmentName(name).Some? ==>
          SameEntry(a.live, b.live, name) && SameEntry(a.durable, b.durable, name))
    && (forall name :: ParseSegmentName(name).Some? && name in a.live && a.live[name] < |a.inodes| ==>
          b.inodes[a.live[name]] == a.inodes[a.live[name]])
    && (forall name :: ParseSegmentName(name).Some? && name in a.durable && a.durable[name] < |a.inodes| ==>
          b.inodes[a.durable[name]] == a.inodes[a.durable[name]])
  }

  ghost predicate Enabled(s: State, step: Step) {
    && |s.kept| == |s.segs|
    && match step
       case Write(events) =>
         Writing(s, events)
       case ShortWrite(events, stored) =>
         Writing(s, events) && stored <= |EncodeAll(Stamp(|s.hist|, events))|
       case SyncActive =>
         s.up && s.named && HasActiveFile(s)
       case CreateSegment =>
         if s.segs == [] then !s.up
         else s.up && s.named && Active(s).recs != [] && s.synced == |Active(s).recs|
       case SyncDirectory =>
         s.up && s.segs != []
       case Swap(i, tmp) =>
         s.up && s.named && i + 1 < |s.segs| && Swappable(s, i, tmp)
       case Other(after) =>
         Sound(after) && SegmentsUntouched(s.disk, after)
       case Kill => s.up
       case Cut(_) => true
       case Reopen =>
         && !s.up && s.named && HasActiveFile(s)
         && |EncodeAll(Active(s).recs)| <= |s.disk.inodes[ActiveNode(s)].data|
  }

  ghost predicate Writing(s: State, events: seq<Event>) {
    && s.up && s.named && HasActiveFile(s)
    && events != [] && AllFramable(events) && |s.hist| + |events| < TWO64
  }

  /** A temporary file holding the compacted segment, synced, and shared with no segment. */
  ghost predicate Swappable(s: State, i: nat, tmp: string)
    requires i < |s.segs|
  {
    var bytes := EncodeAll(Compacted(s.segs[i].recs));
    && tmp in s.disk.live && ParseSegmentName(tmp).None? && Temporary(tmp)
    && Holds(s.disk, s.disk.live[tmp], bytes, bytes)
    && (forall name :: ParseSegmentName(name).Some? && name in s.disk.durable ==>
          s.disk.durable[name] != s.disk.live[tmp])
  }

  function AfterWrite(s: State, events: seq<Event>): State
    requires HasActiveFile(s)
  {
    var more := Stamp(|s.hist|, events);
    s.(disk := Appended(s.disk, ActiveNode(s), EncodeAll(more)),
       segs := WithActive(s, Active(s).recs + more), hist := s.hist + events)
  }

  lemma ActiveStays(s: State, node: nat, p: bytes)
    requires HasActiveFile(s) && node < |s.disk.inodes|
    ensures HasActiveFile(s.(disk := Appended(s.disk, node, p)))
  {
    hide SegmentName;
  }

  ghost function AfterShortWrite(s: State, events: seq<Event>, stored: nat): State
    requires HasActiveFile(s) && stored <= |EncodeAll(Stamp(|s.hist|, events))|
  {
    hide EncodeAll, Stamp, SegmentName, HasActiveFile;
    var disk := Appended(s.disk, ActiveNode(s), EncodeAll(Stamp(|s.hist|, events))[..stored]);
    ActiveStays(s, ActiveNode(s), EncodeAll(Stamp(|s.hist|, events))[..stored]);
    Rescanned(s.(disk := disk))
  }

  function AfterSync(s: State): State
    requires HasActiveFile(s)
  {
    s.(disk := FileSynced(s.disk, ActiveNode(s)), synced := |Active(s).recs|, acked := |s.hist|)
  }

  function AfterCreate(s: State): State
    requires |s.kept| == |s.segs|
  {
    var n := |s.segs|;
    s.(disk := Created(s.disk, SegmentName(|s.hist|)),
       segs := s.segs + [Seg(|s.hist|, [])],
       kept := (if n == 0 then [] else s.kept[..n - 1] + [Active(s).recs]) + [[]],
       synced := 0, named := false, up := true)
  }

  function AfterSyncDirectory(s: State): State {
    s.(disk := DirSynced(s.disk),
       kept := seq(|s.segs|, i requires 0 <= i < |s.segs| => s.segs[i].recs), named := true)
  }

  function AfterSwap(s: State, i: nat, tmp: string): State
    requires i < |s.segs| && tmp in s.disk.live
  {
    s.(disk := Renamed(s.disk, tmp, SegmentName(s.segs[i].base)),
       segs := s.segs[i := Seg(s.segs[i].base, Compacted(s.segs[i].recs))])
  }

  function AfterReopen(s: State): State
    requires HasActiveFile(s) && |EncodeAll(Active(s).recs)| <= |s.disk.inodes[ActiveNode(s)].data|
  {
    s.(disk := Truncated(s.disk, ActiveNode(s), |EncodeAll(Active(s).recs)|), tail := [], up := true)
  }

  ghost function Apply(s: State, step: Step): State
    requires Enabled(s, step)
  {
    match step
    case Write(events) => AfterWrite(s, events)
    case ShortWrite(events, stored) => AfterShortWrite(s, events, stored)
    case SyncActive => AfterSync(s)
    case CreateSegment => AfterCreate(s)
    case SyncDirectory => AfterSyncDirectory(s)
    case Swap(i, tmp) => AfterSwap(s, i, tmp)
    case Other(after) => s.(disk := after)
    case Kill => s.(up := false)
    case Cut(shape) => CutState(s, shape)
    case Reopen => AfterReopen(s)
  }
}
