/**
 * The log as its users hold it: log/log.go's Log, with the commits beside its segments
 * (log/group.go) and its snapshots (log/snapshot.go), all through one filesystem. Every
 * operation of every part carries the life of the whole directory on, so that what was
 * shown of lives holds of the program between any two of its operations.
 */
module Stores {
  import opened Wrappers
  import opened Bytes
  import opened Events
  import opened Records
  import opened Recovery
  import opened SparseIndex
  import opened Names
  import opened Disks
  import opened Owners
  import opened Segments
  import opened Durability
  import opened Preservation
  import opened Runs
  import opened Tails
  import opened Tracking
  import opened Logs
  import opened Readers
  import opened Together
  import G = Groups
  import S = Snapshots

  // ---- Beside somebody else's operations ----

  /** Every moment of a run is a sound disk. */
  lemma SoundAlong(past: seq<Disk>, steps: seq<Step>, s: State)
    requires Tracks(past, steps, s)
    ensures forall j :: 0 <= j < |past| ==> Sound(past[j])
  {
    hide Tracks, Inv, Directory;
    forall j | 0 <= j < |past| ensures Sound(past[j]) {
      EveryMomentIsReachable(past, steps, s, j);
      ReachableKeeps(steps[..j]);
      Basics(Run(INIT, steps[..j]));
    }
  }

  /** To the commits file it was all nothing, and perhaps a directory sync. */
  lemma {:induction false} CommitsAlong(p: seq<Disk>, q: seq<Disk>, o: Owner, c: G.State) returns (taken: seq<G.Step>, t: G.State)
    requires Framed(p, q, o) && o != TheCommits && G.Shows(p[|p| - 1], c)
    requires forall j :: 0 <= j < |q| ==> Sound(q[j])
    ensures G.Traced(q[|p|..], c, taken) && G.Legal(c, taken) && t == G.Run(c, taken) && G.Shows(q[|q| - 1], t)
    ensures t == c || t == c.(named := true)
    ensures SameEntry(p[|p| - 1].live, q[|q| - 1].live, COMMITS_FILE)
    decreases |q|
  {
    hide Minds, G.Shows, Directory, G.Enabled, G.Apply, G.Beside;
    if |q| == |p| {
      assert q == p && q[|p|..] == [];
      taken, t := [], c;
    } else {
      var n := |q| - 1;
      var r, e := q[..n], q[n];
      taken, t := CommitsAlong(p, r, o, c);
      var step := G.Beside(q[n - 1], e, t);
      assert Minds(q[n - 1], q[n], o);
      G.BesideShows(q[n - 1], e, o, t);
      EntryKept(q[n - 1], e, o);
      OnlyNamed(t, q[n - 1], e);
      G.TracedOne(e, t, step);
      assert q[|p|..] == r[|p|..] + [e];
      G.TracedThen(r[|p|..], [e], c, taken, [step]);
      taken, t := taken + [step], G.Apply(t, step);
    }
  }

  lemma OnlyNamed(c: G.State, d: Disk, e: Disk)
    requires G.Enabled(c, G.Beside(d, e, c))
    ensures G.Apply(c, G.Beside(d, e, c)) == c || G.Apply(c, G.Beside(d, e, c)) == c.(named := true)
  {
  }

  lemma EntryKept(d: Disk, e: Disk, o: Owner)
    requires Minds(d, e, o) && o != TheCommits
    ensures SameEntry(d.live, e.live, COMMITS_FILE)
  {
    hide Belongs;
    OneOwner(o, COMMITS_FILE);
    if e != DirSynced(d) {
      assert SameFile(d, e, COMMITS_FILE);
    }
  }

  /** And to the snapshots. */
  lemma MovesAlong(p: seq<Disk>, q: seq<Disk>, o: Owner, written: set<S.Snap>) returns (moves: seq<S.Move>)
    requires Framed(p, q, o) && o != TheSnapshots && forall j :: 0 <= j < |q| ==> Sound(q[j])
    ensures S.Path(q[|p| - 1..], moves, written)
  {
    hide Minds, S.Moves, Directory, BesideMove;
    var n, rest := |q| - |p|, q[|p| - 1..];
    moves := seq(n, i requires 0 <= i < n => BesideMove(rest[i], rest[i + 1]));
    forall i | 0 <= i < n ensures S.Moves(rest[i], rest[i + 1], moves[i], written) {
      assert Minds(q[|p| + i - 1], q[|p| + i], o);
      BesideMoves(rest[i], rest[i + 1], o, written);
    }
  }

  /** The log went on by itself. */
  lemma LogWent(l: Life, past: seq<Disk>, steps: seq<Step>, s: State) returns (m: Life)
    requires Lived(l) && TracksFrom(l.steps, past, steps, s)
    ensures Lived(m) && Extends(l, m) && m.past == past && m.steps == steps && m.written == l.written && LogNow(m) == s
    ensures CommitsNow(m) == CommitsNow(l) || CommitsNow(m) == CommitsNow(l).(named := true)
    ensures SameEntry(Now(l).live, Now(m).live, COMMITS_FILE) && Runs.Remembers(LogNow(l), s)
  {
    hide Inv, G.Inv, G.Shows, S.Kept, Tracks, S.Path, Exact, G.Traced, G.Legal, G.Run, Legal, Run, Directory, Framed;
    ThisMoment(l);
    TracksFramed(l.past, l.steps, LogNow(l), past, steps, s);
    SoundAlong(past, steps, s);
    FramedEnds(l.past, past, TheLog);
    var taken, c := CommitsAlong(l.past, past, TheLog, CommitsNow(l));
    var moves := MovesAlong(l.past, past, TheLog, l.written);
    GoesOn(l, past, steps, s, taken, moves);
    m := Life(past, steps, l.csteps + taken, l.moves + moves, l.written);
    Between(m, |l.steps|, |m.steps|);
    assert m.steps[..|l.steps|] == l.steps == l.steps[..|l.steps|];
  }

  lemma FramedEnds(p: seq<Disk>, q: seq<Disk>, o: Owner)
    requires Framed(p, q, o)
    ensures p != [] && p <= q
  {
  }

  /** The commits file went on, and nothing else. */
  lemma CommitsWent(l: Life, past: seq<Disk>, steps: seq<Step>, s: State, taken: seq<G.Step>, c: G.State) returns (m: Life)
    requires Lived(l) && Tracks(past, steps, s) && G.Goes(l.past, past, CommitsNow(l), taken, c)
    ensures Lived(m) && m.past == past && m.steps == steps && m.written == l.written && LogNow(m) == s && CommitsNow(m) == c
  {
    hide Inv, G.Inv, G.Shows, S.Kept, Tracks, S.Path, Exact, G.Traced, G.Legal, G.Run, Legal, Run, Directory, Framed;
    SoundAlong(past, steps, s);
    FramedEnds(l.past, past, TheCommits);
    var moves := MovesAlong(l.past, past, TheCommits, l.written);
    GoesOn(l, past, steps, s, taken, moves);
    m := Life(past, steps, l.csteps + taken, l.moves + moves, l.written);
  }

  /** A snapshot was taken, or not quite. */
  lemma SnapshotsWent(l: Life, past: seq<Disk>, steps: seq<Step>, s: State, moves: seq<S.Move>) returns (m: Life)
    requires Lived(l) && Tracks(past, steps, s) && S.Continues(l.past, past, moves, l.written)
    ensures Lived(m) && l.past <= m.past == past && m.steps == steps && m.written == l.written && LogNow(m) == s
    ensures CommitsNow(m) == CommitsNow(l) || CommitsNow(m) == CommitsNow(l).(named := true)
    ensures SameEntry(Now(l).live, Now(m).live, COMMITS_FILE)
  {
    hide Inv, G.Inv, G.Shows, S.Kept, Tracks, S.Path, Exact, G.Traced, G.Legal, G.Run, Legal, Run, Directory, Framed;
    ThisMoment(l);
    SoundAlong(past, steps, s);
    FramedEnds(l.past, past, TheSnapshots);
    var taken, c := CommitsAlong(l.past, past, TheSnapshots, CommitsNow(l));
    GoesOn(l, past, steps, s, taken, moves);
    m := Life(past, steps, l.csteps + taken, l.moves + moves, l.written);
  }

  /** One more state that may be snapshotted changes nothing so far. */
  lemma MayBeTaken(l: Life, s: S.Snap) returns (m: Life)
    requires Lived(l)
    ensures m == l.(written := l.written + {s}) && Lived(m) && LogNow(m) == LogNow(l) && CommitsNow(m) == CommitsNow(l)
  {
    hide Tracks, G.Traced, G.Legal, G.Run, Legal, Run;
    m := l.(written := l.written + {s});
    forall i | 0 <= i < |l.moves| ensures S.Moves(l.past[i], l.past[i + 1], l.moves[i], m.written) {
      assert S.Moves(l.past[i], l.past[i + 1], l.moves[i], l.written);
    }
  }

  // ---- What a caller may rely on ----

  /** Whatever was asked to be committed or snapshotted is acknowledged. */
  ghost predicate Within(l: Life) {
    AskedBeneath(CommitsNow(l), LogNow(l).acked) && forall s :: s in l.written ==> s.off <= LogNow(l).acked
  }

  /** The same directory, later: nothing acknowledged or durably committed is forgotten, and what was within the log is. */
  ghost predicate Since(l: Life, m: Life) {
    && l.past <= m.past && l.written <= m.written
    && Runs.Remembers(LogNow(l), LogNow(m)) && G.Remembers(CommitsNow(l), CommitsNow(m))
  }

  /** So nothing on the disk is beyond the tail. */
  lemma WithinTheTail(l: Life)
    requires Lived(l) && Within(l)
    ensures Beneath(Now(l), |LogNow(l).hist|)
    ensures forall g :: g in Committed(Now(l)) ==> Committed(Now(l))[g] <= |LogNow(l).hist|
  {
    hide Inv, G.Inv, G.Shows, Lived, Exact, LogNow, CommitsNow, Now, Committed, Encode, Framable, ParseSnapshotName, Directory;
    ThisMoment(l);
    WithinHistory(LogNow(l));
    AskedThenCommitted(Now(l), CommitsNow(l), LogNow(l).acked);
    forall off: nat | S.AtLeast(Now(l).live, off) || S.AtLeast(Now(l).durable, off) ensures off <= |LogNow(l).hist| {
    }
  }

  // ---- The handle on the commits file, while somebody else is at work ----

  ghost predicate Dormant(c: G.Commits, log: Log, d: Disk, s: G.State)
    reads c, c.seg
  {
    && c.log == log && c.fs == log.fs && c.seg.fs == log.fs
    && c.seg.Settled() && c.seg.base == 0 && Ascending(0, c.seg.recs)
    && COMMITS_FILE in d.live && d.live[COMMITS_FILE] == c.seg.node
    && c.st == s && s.up && !s.pending && s.sealed == c.seg.sealed && s.recs == c.seg.recs
    && (c.intact ==> c.at == G.LastPerGroup(s.recs)) && G.AllAsked(c.at, s.asked)
  }

  lemma FallsAsleep(c: G.Commits)
    requires c.Valid()
    ensures Dormant(c, c.log, c.fs.View(), c.st)
  {
    hide EncodeAll, IndexOf, G.Inv, G.Shows, G.AllAsked, G.LastPerGroup;
  }

  ghost method WakesUp(c: G.Commits, log: Log, d: Disk, s: G.State, t: G.State)
    requires Dormant(c, log, d, s) && (t == s || t == s.(named := true)) && G.Inv(t) && G.Shows(log.fs.View(), t) && log.fs.Valid()
    requires SameEntry(d.live, log.fs.live, COMMITS_FILE)
    modifies c`st
    ensures c.log == log && c.Valid() && c.st == t
  {
    hide EncodeAll, IndexOf, G.AllAsked, G.LastPerGroup, G.Recorded, G.Held, Unframed;
    c.st := t;
    assert EncodeAll(t.recs) + [] == EncodeAll(t.recs);
    assert (EncodeAll(t.recs) + t.tail)[..|EncodeAll(t.recs)|] == EncodeAll(t.recs);
  }

  lemma FsOf(c: G.Commits)
    requires c.Valid()
    ensures c.fs == c.log.fs == c.seg.fs
  {
    hide G.Inv, G.Shows, G.AllAsked, G.LastPerGroup, Segment.Valid;
  }

  class Store {
    const log: Log
    var commits: G.Commits?

    /** What the caller who opened it asked for. */
    ghost const config: Config

    /** Everything that has happened to the directory. */
    ghost var life: Life

    ghost predicate Alive()
      reads this`life, log`steps, log`st, log.fs
    {
      && Lived(life) && life.past == log.fs.past && life.steps == log.steps && LogNow(life) == log.st
      && log.st.disk == log.fs.View()
    }

    ghost function Handle(): set<object>
      reads this`commits
    {
      if commits == null then {} else {commits, commits.seg}
    }

    ghost function Watch(): set<G.Commits>
      reads this`commits
    {
      if commits == null then {} else {commits}
    }

    /** The commits, once somebody has asked for a group. */
    ghost predicate Attended()
      reads this`life, this`commits, log.fs, Handle()
    {
      commits != null ==> commits.log == log && commits.fs == log.fs && commits.Valid() && commits.st == CommitsNow(life)
    }

    ghost predicate Valid()
      reads this, log, log.fs, log.active, log.sealed.Values, Handle()
    {
      Alive() && log.Valid() && Attended() && AskedFor(config, log.cfg)
    }

    constructor (log: Log, ghost life: Life, ghost config: Config)
      requires AskedFor(config, log.cfg)
      requires Lived(life) && life.past == log.fs.past && life.steps == log.steps && LogNow(life) == log.st && log.Valid()
      ensures Valid() && this.log == log && this.life == life && this.config == config && commits == null
    {
      hide Lived, TracksFrom, Log.Handle, Log.Cached;
      this.log, this.life, this.config, commits := log, life, config, null;
    }

    /** Before somebody else's turn. */
    ghost method Rests()
      requires Valid()
      modifies log`origin
      ensures log.Valid() && log.origin == log.steps == life.steps && Alive()
      ensures commits != null ==> Dormant(commits, log, Now(life), CommitsNow(life)) && commits.seg != log.active
    {
      hide Lived, Log.Consistent, G.Commits.Linked;
      if commits != null {
        Aside();
      }
      log.Marked();
    }

    lemma Aside()
      requires Valid() && commits != null
      ensures Dormant(commits, log, Now(life), CommitsNow(life)) && commits.seg != log.active
    {
      hide Inv, G.Inv, G.Shows, Lived, LogNow, CommitsNow, Log.Consistent, S.Kept, Exact, Dormant, G.Commits.Linked;
      ThisMoment(life);
      FallsAsleep(commits);
      commits.Apart();
    }

    /** After the log's. */
    ghost method LogDone()
      requires Lived(life) && TracksFrom(life.steps, log.fs.past, log.steps, log.st) && log.st.disk == log.fs.View()
      requires commits != null ==> Dormant(commits, log, Now(life), CommitsNow(life))
      modifies this`life, Watch()`st
      ensures Alive() && Attended() && Since(old(life), life) && (old(Within(life)) ==> Within(life)) && life.written == old(life.written)
    {
      hide Inv, G.Inv, G.Shows, Lived, LogNow, CommitsNow, Now, TracksFrom, S.Kept, Exact, Dormant, Directory, Extends;
      ThisMoment(life);
      var m := LogWent(life, log.fs.past, log.steps, log.st);
      Later(life, m);
      ThisMoment(m);
      Ending(m, log.fs.past);
      if commits != null {
        WakesUp(commits, log, Now(life), CommitsNow(life), CommitsNow(m));
      }
      life := m;
    }

    /** After the commits'. */
    ghost method CommitsDone(taken: seq<G.Step>, c: G.State)
      requires Lived(life) && log.Valid() && G.Goes(life.past, log.fs.past, CommitsNow(life), taken, c)
      requires log.st.hist == LogNow(life).hist && log.st.acked == LogNow(life).acked
      modifies this`life
      ensures Alive() && CommitsNow(life) == c && Since(old(life), life) && life.written == old(life.written)
    {
      hide Lived, Log.Consistent, Tracks, Since, LogNow, CommitsNow, G.Goes;
      StillTracked(log);
      var m := CommitsWent(life, log.fs.past, log.steps, log.st, taken, c);
      CommitsSince(life, m, taken);
      life := m;
    }

    /** After a snapshot. */
    ghost method SnapshotDone(s: S.Snap, l: Life, moves: seq<S.Move>)
      requires Lived(life) && Lived(l) && l == life.(written := life.written + {s})
      requires log.Valid() && S.Continues(life.past, log.fs.past, moves, l.written)
      requires LogNow(l) == LogNow(life) && CommitsNow(l) == CommitsNow(life)
      requires log.st.hist == LogNow(life).hist && log.st.acked == LogNow(life).acked
      requires commits != null ==> Dormant(commits, log, Now(life), CommitsNow(life))
      modifies this`life, Watch()`st
      ensures Alive() && Attended() && Since(old(life), life) && (old(Within(life)) && s.off <= log.st.acked ==> Within(life))
    {
      hide Inv, G.Inv, G.Shows, Lived, LogNow, CommitsNow, Now, S.Kept, Exact, Dormant, Directory, Log.Consistent, S.Continues, TracksFrom,
           Within, Since;
      StillTracked(log);
      var m := SnapshotsWent(l, log.fs.past, log.steps, log.st, moves);
      SnapshotsSince(life, l, m, s);
      ThisMoment(m);
      Ending(m, log.fs.past);
      SameNow(life, l);
      S.Looking(log);
      if commits != null {
        WakesUp(commits, log, Now(life), CommitsNow(life), CommitsNow(m));
      }
      life := m;
    }

    /** `Append`. */
    method Append(events: seq<Event>, now: int) returns (offsets: seq<nat>, err: Option<Error>)
      requires Valid() && |log.st.hist| + |events| < TWO64
      modifies this`life, Watch()`st, log, log.fs, log.active
      ensures Blames(old(log.fs.refused), log.fs.refused, err)
      ensures Alive() && Attended() && Since(old(life), life) && (old(Within(life)) ==> Within(life))
      ensures err.Some? && err.value.Io? ==> !log.st.up
      ensures !(err.Some? && err.value.Io?) ==>
                Valid() && AppendedTo(old(log.st), log.st, log.cfg.segment.Limit(), events, offsets, err)
      ensures !(err.Some? && err.value.Io?) ==> RolledInTime(old(log.st).segs, log.st.segs, SegmentBytes(config), events, err)
      ensures err.None? && events != [] && config.mode == EveryCall ==> NothingToLose(log.st)
      ensures err.None? && events != [] && config.mode == Batch ==>
                && (config.syncRecords > 0 ==> log.sinceSync < config.syncRecords)
                && (config.syncRecords <= 0 && config.syncInterval <= 0 ==> log.sinceSync < 1024)
                && (config.syncInterval > 0 && config.clocked ==> now - log.lastSync < config.syncInterval)
    {
      hide RolledInTime, NothingToLose, Lived, Log.Consistent, TracksFrom, Dormant, Since, Within, AppendedTo, Now, LogNow, CommitsNow, G.Commits.Valid, Carried;
      Rests();
      offsets, err := log.Append(events, now);
      if !(err.Some? && err.value.Io?) {
        StillTracked(log);
        AllAcknowledged(log);
      }
      LogDone();
    }

    /** `Sync`. */
    method Sync(now: int) returns (err: Option<Error>)
      requires Valid()
      modifies this`life, Watch()`st, log, log.fs
      ensures Blames(old(log.fs.refused), log.fs.refused, err)
      ensures Alive() && Attended() && Since(old(life), life) && (old(Within(life)) ==> Within(life))
      ensures err.Some? ==> !log.st.up
      ensures err.None? ==>
                Valid() && log.st.segs == old(log.st.segs) && log.st.hist == old(log.st.hist) && log.st.acked == |log.st.hist|
    {
      hide Lived, Log.Consistent, TracksFrom, Dormant, Since, Within, Now, LogNow, CommitsNow, G.Commits.Valid;
      Rests();
      err := log.Sync(now);
      if err.None? {
        StillTracked(log);
      }
      LogDone();
    }

    /** `Read`. */
    method Read(off: nat) returns (r: Result<Record, Error>)
      requires Valid()
      modifies this`life, Watch()`st, log, log.fs
      ensures Blames(old(log.fs.refused), log.fs.refused, ErrorOf(r))
      ensures Valid() && Since(old(life), life) && (old(Within(life)) ==> Within(life)) && log.st == old(log.st)
      ensures off >= |log.st.hist| ==> r == Err(NotFound)
      ensures r.Ok? ==> off < |log.st.hist| && r.value.offset == off && r.value.event == log.st.hist[off]
    {
      hide Lived, Log.Consistent, TracksFrom, Dormant, Since, Within, Now, LogNow, CommitsNow, G.Commits.Valid;
      Rests();
      r := log.Read(off);
      StillTracked(log);
      LogDone();
    }

    /** `CompactAll`. */
    method CompactAll() returns (reports: seq<Report>, err: Option<Error>)
      requires Valid()
      modifies this`life, Watch()`st, log, log.fs
      ensures Blames(old(log.fs.refused), log.fs.refused, err)
      ensures Alive() && Attended() && Since(old(life), life) && (old(Within(life)) ==> Within(life))
      ensures log.st.up ==> Valid() && FirstCompacted(old(log.st), log.st, |reports|)
      ensures err.None? ==> log.st.up && |reports| == |old(log.st).segs| - 1
    {
      hide Lived, Log.Consistent, TracksFrom, Dormant, Since, Within, Now, LogNow, CommitsNow, G.Commits.Valid, CompactedUpTo,
           Accounts;
      Rests();
      reports, err := log.CompactAll();
      if err.None? || log.st.up {
        StillTracked(log);
      }
      LogDone();
    }

    /** `Compact`, of a segment. */
    method Compact(base: nat) returns (r: Result<Report, Error>, ghost i: nat)
      requires Valid() && base in log.bases
      modifies this`life, Watch()`st, log, log.fs
      ensures Blames(old(log.fs.refused), log.fs.refused, ErrorOf(r))
      ensures Alive() && Attended() && Since(old(life), life) && (old(Within(life)) ==> Within(life))
      ensures r.Ok? ==> Valid() && CompactedAt(old(log.st), log.st, i)
      ensures log.st.up ==> Valid()
    {
      hide Lived, Log.Consistent, TracksFrom, Dormant, Since, Within, Now, LogNow, CommitsNow, G.Commits.Valid, CompactedAt, Accounts,
           Overlapping, SwapMoments, Lowest;
      Rests();
      r, i := log.Compact(base);
      if log.st.up {
        StillTracked(log);
      }
      LogDone();
    }

    /** `openCommits`, which comes before anything is done with a group. */
    method OpenGroups() returns (err: Option<Error>)
      requires Valid()
      modifies this`commits, this`life, log.fs, log`origin, log`steps, log`st
      ensures Blames(old(log.fs.refused), log.fs.refused, err)
      ensures Valid() && Since(old(life), life) && (old(Within(life)) ==> Within(life))
      ensures log.st.segs == old(log.st.segs) && log.st.hist == old(log.st.hist) && log.st.acked == old(log.st.acked)
      ensures err.None? <==> commits != null
      ensures old(commits) != null ==> commits == old(commits) && log.fs.past == old(log.fs.past)
      ensures old(commits) == null && commits != null ==> fresh(Handle()) && commits.at == Committed(Now(old(life)))
    {
      hide Lived, Log.Consistent, TracksFrom, Since, Within, Now, LogNow, CommitsNow, G.Commits.Linked, Inv, G.Inv, G.Shows, S.Kept, Exact,
           G.Goes, Committed, G.Recovered, G.LastPerGroup, G.AllAsked;
      SinceNow(life);
      if commits != null {
        return None;
      }
      ThisMoment(life);
      CommittedIs(Now(life), CommitsNow(life));
      ghost var l, after, taken := life, CommitsNow(life), [];
      var made;
      made, after, taken := G.OpenCommits(log, CommitsNow(life));
      CommitsDone(taken, after);
      WithinStill(l, life);
      if made.Err? {
        return Some(made.error);
      }
      FsOf(made.value);
      commits := made.value;
      err := None;
    }

    /** `Group.Commit`. What returned is what `CommitAtAnyMoment` is about. */
    method Commit(group: bytes, off: nat, time: int64) returns (err: Option<Error>)
      requires Valid() && commits != null && |commits.seg.recs| + 1 < TWO64
      modifies this`life, commits, commits.seg, log.fs, log`origin, log`steps, log`st
      ensures Blames(old(log.fs.refused), log.fs.refused, err)
      ensures Valid() && Since(old(life), life) && log.st == old(log.st).(disk := log.st.disk)
      ensures off > |log.st.hist| <==> err == Some(NotFound)
      ensures Settles(err, G.Ask(group, off, time), old(commits.at), commits.at, CommitsNow(life))
      ensures old(Within(life)) && off <= log.st.acked ==> Within(life)
    {
      hide Lived, Log.Consistent, TracksFrom, Since, Within, LogNow, CommitsNow, G.Commits.Linked, Inv, G.Inv, G.Shows, S.Kept, Exact, G.Goes,
           G.AllAsked, G.LastPerGroup, Returned, Framable, G.CommitEvent;
      ThisMoment(life);
      FsOf(commits);
      ghost var taken := [];
      err, taken := commits.Commit(group, off, time);
      ghost var l := life;
      CommitsDone(taken, commits.st);
      OneMoreWithin(l, life, G.Ask(group, off, time));
      if err.None? {
        CommitReturned(l.past, life.past, CommitsNow(l), G.Ask(group, off, time), taken, commits.st);
      }
    }

    /** `Group.Reader`: while everything asked for was acknowledged, there is always somewhere to resume. */
    method GroupReader(group: bytes) returns (r: Result<Reader, Error>)
      requires Valid() && commits != null
      ensures var from := if group in commits.at then commits.at[group] else 0;
              && (r.Err? <==> from > |log.st.hist|)
              && (r.Ok? ==> fresh(r.value) && r.value.Valid() && r.value.log == log && r.value.next == from)
      ensures Within(life) ==> r.Ok?
    {
      hide Lived, Log.Consistent, LogNow, CommitsNow, Inv, G.Inv, G.Shows, S.Kept, Exact, G.Commits.Linked;
      ThisMoment(life);
      WithinHistory(LogNow(life));
      r := G.GroupReader(commits, group);
    }

    /** `Snapshot`. */
    method Snapshot(off: nat, state: bytes) returns (err: Option<Error>)
      requires Valid() && |log.st.hist| + 1 < TWO64
      modifies this`life, Watch()`st, log.fs, log`origin, log`steps, log`st
      ensures Blames(old(log.fs.refused), log.fs.refused, err)
      ensures Valid() && Since(old(life), life)
      ensures log.st.segs == old(log.st.segs) && log.st.hist == old(log.st.hist) && log.st.acked == old(log.st.acked)
      ensures off > |log.st.hist| <==> err == Some(NotFound)
      ensures err.None? ==> S.Visible(log.st.disk, S.Snap(off, state)) && S.AtLeast(log.st.disk.durable, off) && S.Backed(log.st.disk)
      ensures old(Within(life)) && off <= log.st.acked ==> Within(life)
    {
      hide Lived, Log.Consistent, Tracks, TracksFrom, Since, Within, Now, LogNow, CommitsNow, G.Commits.Valid, Inv, G.Inv, G.Shows, S.Kept, Exact,
           S.Continues, S.Visible, S.Backed, S.AtLeast, Dormant, Framable, ParseSnapshotName, SnapshotName, Directory;
      Rests();
      ghost var l := MayBeTaken(life, S.Snap(off, state));
      ThisMoment(l);
      ghost var moves := [];
      err, moves := S.Snapshot(log, off, state, l.written);
      SnapshotDone(S.Snap(off, state), l, moves);
      if err.None? {
        Reaches(log.st.disk, off);
      }
    }

    /** `Restore`: likewise, a snapshot is never refused for being beyond the tail. */
    method Restore() returns (r: Result<(Option<S.Snap>, Reader), Error>)
      requires Valid()
      modifies this`life, Watch()`st, log.fs, log`origin, log`steps, log`st
      ensures Blames(old(log.fs.refused), log.fs.refused, ErrorOf(r))
      ensures Valid() && Since(old(life), life) && log.st == old(log.st) && (old(Within(life)) ==> Within(life))
      ensures r.Ok? || r == Err(NotFound) || r.error.Io?
      ensures S.Refuses(log.st.disk, |log.st.hist|, ErrorOf(r))
      ensures Within(life) ==> r != Err(NotFound)
    {
      hide Lived, Log.Valid, TracksFrom, Since, Within, Now, LogNow, CommitsNow, G.Commits.Valid, Inv, G.Inv, G.Shows, S.Kept, Exact,
           S.Refuses, Dormant, Directory, Committed, Reader.Valid, S.IsNewest, Beneath, Blames;
      Rests();
      ThisMoment(life);
      r := S.Restore(log, life.written);
      StillTracked(log);
      LogDone();
      NeverRefused(life, ErrorOf(r));
    }

    /** `Open`: whatever the directory has been through. */
    static method Open(fs: FS, config: Config, now: int, ghost before: Life) returns (r: Result<Store, Error>, ghost after: Life)
      requires Lived(before) && before.past == fs.past && Now(before) == fs.View()
      requires !LogNow(before).up && LogNow(before).named
      modifies fs
      ensures Blames(old(fs.refused), fs.refused, ErrorOf(r))
      ensures Lived(after) && after.past == fs.past && Now(after) == fs.View()
      ensures Since(before, after) && (Within(before) ==> Within(after)) && CommitsNow(after).asked == CommitsNow(before).asked
      ensures r.Ok? ==>
                && fresh(r.value) && fresh(r.value.log) && r.value.log.fs == fs && r.value.Valid() && r.value.life == after
                && r.value.commits == null && r.value.config == config
      ensures r.Ok? && LogNow(before).segs != [] ==> r.value.log.st.segs == LogNow(before).segs && r.value.log.st.hist == LogNow(before).hist
    {
      hide Lived, Log.Consistent, Tracks, TracksFrom, Since, Within, Now, LogNow, CommitsNow, Inv, G.Inv, G.Shows, S.Kept, Exact, Directory, EncodeAll,
           Extends;
      ThisMoment(before);
      LivedTracks(before);
      var made, _, s, steps := Log.Open(fs, config, now, LogNow(before), before.steps, before.steps);
      after := LogWent(before, fs.past, steps, s);
      ThisMoment(after);
      Later(before, after);
      if made.Err? {
        return Err(made.error), after;
      }
      var store := new Store(made.value, after, config);
      r := Ok(store);
    }

    /** The power goes, and takes the program with it. */
    static method PowerFails(fs: FS, shape: Shape, ghost before: Life) returns (ghost after: Life)
      requires Lived(before) && before.past == fs.past && Now(before) == fs.View() && fs.Valid()
      modifies fs
      ensures old(fs.refused) <= fs.refused
      ensures Lived(after) && after.past == fs.past && Now(after) == fs.View() && after == CutShort(before, shape)
      ensures !LogNow(after).up && LogNow(after).named
      ensures Since(before, after) && (Within(before) ==> Within(after))
    {
      hide Lived, Tracks, TracksFrom, Since, Within, Now, LogNow, CommitsNow, Inv, G.Inv, G.Shows, S.Kept, Exact, Directory, PowerCut, CutShort,
           Extends, CutState, G.Apply;
      ThisMoment(before);
      fs.Cut(shape);
      CutGoesOn(before, shape);
      after := CutShort(before, shape);
      CutPast(before, shape);
      CutSince(before, shape);
      Stopped(LogNow(before), shape);
    }
  }

  /** The first `n` segments are as their compaction leaves them. */
  ghost predicate FirstCompacted(before: State, after: State, n: nat) {
    n <= |before.segs| && after.segs == CompactedUpTo(before.segs, n)
  }

  /** Whatever shape the power goes in, the history is whole after it. */
  ghost predicate NothingToLose(s: State) {
    |s.kept| == |s.segs| && s.acked == |s.hist| && forall shape :: CutState(s, shape).hist == s.hist
  }

  lemma AllAcknowledged(log: Log)
    requires log.Valid()
    ensures log.st.acked == |log.st.hist| && log.AtRisk() == 0 ==> NothingToLose(log.st)
  {
    hide TracksFrom, Inv, Log.Handle, Log.Cached, CutState;
    log.Knows();
    Basics(log.st);
    if log.st.acked == |log.st.hist| {
      forall shape ensures CutState(log.st, shape).hist == log.st.hist {
        CutIsARun(log.st, shape);
        RunRemembers(log.st, [Step.Cut(shape)]);
        CutLosesOnlyUnsynced(log.st, shape);
      }
    }
  }

  lemma StillTracked(log: Log)
    requires log.Valid()
    ensures log.Tracked() && Tracks(log.fs.past, log.steps, log.st)
  {
    hide Tracks, Log.Handle, Log.Cached;
  }

  lemma Later(l: Life, m: Life)
    requires Lived(l) && Lived(m) && Extends(l, m) && Runs.Remembers(LogNow(l), LogNow(m)) && l.written == m.written
    requires CommitsNow(m) == CommitsNow(l) || CommitsNow(m) == CommitsNow(l).(named := true)
    ensures Since(l, m) && (Within(l) ==> Within(m))
  {
    hide Lived, LogNow, CommitsNow;
  }

  lemma NeverRefused(l: Life, err: Option<Error>)
    requires Lived(l) && S.Refuses(LogNow(l).disk, |LogNow(l).hist|, err)
    ensures Within(l) ==> err != Some(NotFound)
  {
    hide Lived, LogNow, CommitsNow, Within, Now, Inv, G.Inv, G.Shows, S.Kept, Exact, S.AtLeast, Committed;
    ThisMoment(l);
    if Within(l) {
      WithinTheTail(l);
    }
  }

  lemma SinceNow(l: Life)
    requires Lived(l)
    ensures Since(l, l)
  {
    hide Lived, LogAt, CommitsAt, Inv, G.Inv, G.Shows, S.Kept, Exact;
    ThisMoment(l);
    WithinHistory(LogNow(l));
  }

  /** The commits went on, and the log stayed where it was. */
  lemma CommitsSince(l: Life, m: Life, taken: seq<G.Step>)
    requires Lived(l) && Lived(m) && G.Goes(l.past, m.past, CommitsNow(l), taken, CommitsNow(m)) && l.written == m.written
    requires LogNow(l).hist == LogNow(m).hist && LogNow(l).acked == LogNow(m).acked
    ensures Since(l, m)
  {
    hide Lived, LogNow, CommitsNow, Inv, G.Inv, G.Shows, S.Kept, Exact, G.Traced, G.Legal, G.Run, Minds;
    ThisMoment(l);
    WithinHistory(LogNow(l));
    G.GoesKeeps(l.past, m.past, CommitsNow(l), taken, CommitsNow(m));
  }

  lemma WithinStill(l: Life, m: Life)
    requires LogNow(l).acked == LogNow(m).acked && l.written == m.written && CommitsNow(l).asked == CommitsNow(m).asked
    ensures Within(l) ==> Within(m)
  {
    hide LogNow, CommitsNow;
  }

  lemma OneMoreWithin(l: Life, m: Life, a: G.Ask)
    requires LogNow(l).acked == LogNow(m).acked && l.written == m.written
    requires CommitsNow(m).asked == CommitsNow(l).asked || CommitsNow(m).asked == CommitsNow(l).asked + [a]
    ensures Within(l) && a.off <= LogNow(m).acked ==> Within(m)
  {
    hide LogNow, CommitsNow;
  }

  /** A commit that returned is in the map and is its group's last; one that failed is not in the map. */
  ghost predicate Settles(err: Option<Error>, a: G.Ask, before: map<bytes, nat>, now: map<bytes, nat>, c: G.State) {
    if err.None? then now == before[a.group := a.off] && Returned(c, a) else now == before
  }

  /** The attempt is its group's last that returned, and the last of all. */
  ghost predicate Returned(c: G.State, a: G.Ask) {
    c.asked != [] && c.asked[|c.asked| - 1] == a && a.group in c.returned && c.returned[a.group] == |c.asked| - 1
  }

  lemma CommitReturned(p: seq<Disk>, q: seq<Disk>, s: G.State, a: G.Ask, taken: seq<G.Step>, t: G.State)
    requires G.Goes(p, q, s, taken, t) && taken == [G.Write(a), G.SyncReturns]
    ensures Returned(t, a)
  {
    hide G.Traced, Framed, Framable, Encode, G.CommitEvent;
    assert taken[1..] == [G.SyncReturns] && [G.SyncReturns][1..] == [];
    assert t == G.Run(G.Apply(s, G.Write(a)), [G.SyncReturns]);
  }

  lemma SnapshotsSince(l: Life, k: Life, m: Life, s: S.Snap)
    requires Lived(l) && k == l.(written := l.written + {s}) && Lived(m) && l.past <= m.past && m.written == k.written
    requires LogNow(l).hist == LogNow(m).hist && LogNow(l).acked == LogNow(m).acked
    requires CommitsNow(m) == CommitsNow(l) || CommitsNow(m) == CommitsNow(l).(named := true)
    ensures Since(l, m) && (Within(l) && s.off <= LogNow(m).acked ==> Within(m))
  {
    hide Lived, LogNow, CommitsNow, Inv, G.Inv, G.Shows, S.Kept, Exact;
    ThisMoment(l);
    WithinHistory(LogNow(l));
  }

  lemma Reaches(d: Disk, off: nat)
    requires off < TWO64 && SnapshotName(off) in d.durable
    ensures S.AtLeast(d.durable, off)
  {
    hide SnapshotName, ParseSnapshotName;
    ParseSnapshotNameOfName(off);
  }

  lemma LivedTracks(l: Life)
    requires Lived(l)
    ensures TracksFrom(l.steps, l.past, l.steps, LogNow(l))
  {
    hide Tracks, S.Path, G.Traced, G.Legal, G.Run, Inv, G.Inv, G.Shows, S.Kept, Exact;
    ThisMoment(l);
    TracksHere(l.past, l.steps, LogNow(l));
  }

  lemma CutPast(l: Life, shape: Shape)
    ensures CutShort(l, shape).past == l.past + [PowerCut(Now(l), shape)] && CutShort(l, shape).written == l.written
  {
  }

  lemma CutSince(l: Life, shape: Shape)
    requires Lived(l)
    ensures Since(l, CutShort(l, shape)) && (Within(l) ==> Within(CutShort(l, shape)))
  {
    hide Lived, LogNow, CommitsNow, Now, Inv, G.Inv, G.Shows, S.Kept, Exact, CutShort, CutState, PowerCut, G.Apply;
    ThisMoment(l);
    CutGoesOn(l, shape);
    CutPast(l, shape);
    CutIsARun(LogNow(l), shape);
    RunRemembers(LogNow(l), [Step.Cut(shape)]);
    CutAsksNothing(CommitsNow(l), shape);
    G.JustCut(CommitsNow(l), shape);
    G.StepRemembers(CommitsNow(l), G.Step.Cut(shape));
  }

  lemma Stopped(s: State, shape: Shape)
    requires Inv(s)
    ensures |s.kept| == |s.segs| && !CutState(s, shape).up && CutState(s, shape).named
  {
    hide Inv, EncodeAll, SegmentName, Scan, PowerCut;
    Basics(s);
  }

  lemma SameNow(l: Life, m: Life)
    requires l.past == m.past
    ensures Now(l) == Now(m)
  {
  }

  lemma Ending(l: Life, past: seq<Disk>)
    requires Lived(l) && l.past == past
    ensures past != [] && Now(l) == past[|past| - 1]
  {
    hide Tracks, S.Path, G.Traced, G.Legal, G.Run, Legal, Run;
  }
}
