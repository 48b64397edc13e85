/**
 * One directory, three machines. The segments, the commits file and the snapshots are
 * written by one program through one filesystem, so every state the disk has been in is a
 * state of all three at once. What any of them does is, to the other two, nothing or a
 * directory sync; what was proved of each alone therefore holds of every run of them all,
 * and what ties them to one another, that a committed offset or a snapshot lies within the
 * log, can be asked.
 */
module Together {
  import opened Wrappers
  import opened Bytes
  import opened Events
  import opened Records
  import opened Recovery
  import opened Names
  import opened Disks
  import opened Owners
  import opened Segments
  import opened Durability
  import opened Preservation
  import opened Runs
  import opened Tails
  import opened Tracking
  import opened Logs
  import opened Readers
  import G = Groups
  import S = Snapshots

  /** Every state of the disk, and the step each of the three took into it. */
  datatype Life = Life(past: seq<Disk>, steps: seq<Step>, csteps: seq<G.Step>, moves: seq<S.Move>, written: set<S.Snap>)

  ghost predicate Lived(l: Life) {
    && Legal(INIT, l.steps) && Tracks(l.past, l.steps, Run(INIT, l.steps)) && |l.past| == |l.steps| + 1
    && l.past[0] == EMPTY
    && G.Legal(G.INIT, l.csteps) && G.Traced(l.past[1..], G.INIT, l.csteps) && |l.csteps| == |l.steps|
    && S.Path(l.past, l.moves, l.written)
  }

  /** What each machine made of moment `i`. */
  ghost function LogAt(l: Life, i: nat): State {
    if i <= |l.steps| && Legal(INIT, l.steps[..i]) then Run(INIT, l.steps[..i]) else INIT
  }

  ghost function CommitsAt(l: Life, i: nat): G.State {
    if i <= |l.csteps| && G.Legal(G.INIT, l.csteps[..i]) then G.Run(G.INIT, l.csteps[..i]) else G.INIT
  }

  ghost function Now(l: Life): Disk {
    if l.past == [] then EMPTY else l.past[|l.past| - 1]
  }

  ghost function LogNow(l: Life): State {
    LogAt(l, |l.steps|)
  }

  ghost function CommitsNow(l: Life): G.State {
    CommitsAt(l, |l.csteps|)
  }

  /** What a restart would find committed, from the bytes of the directory alone. */
  function Committed(d: Disk): map<bytes, nat> {
    if COMMITS_FILE in d.live && d.live[COMMITS_FILE] < |d.inodes|
    then G.LastPerGroup(Scan(d.inodes[d.live[COMMITS_FILE]].data, 0).records)
    else map[]
  }

  // ---- Every moment ----

  lemma {:induction false} CommitsInTwo(s: G.State, a: seq<G.Step>, b: seq<G.Step>)
    requires G.Legal(s, a + b)
    ensures G.Legal(s, a) && G.Legal(G.Run(s, a), b) && G.Run(s, a + b) == G.Run(G.Run(s, a), b)
    decreases |a|
  {
    hide G.Enabled, G.Apply;
    if a == [] {
      assert a + b == b;
    } else {
      assert (a + b)[0] == a[0] && (a + b)[1..] == a[1..] + b;
      CommitsInTwo(G.Apply(s, a[0]), a[1..], b);
    }
  }

  lemma {:induction false} CommitsShown(s: G.State, steps: seq<G.Step>, past: seq<Disk>, i: nat)
    requires G.Traced(past, s, steps) && i <= |steps|
    ensures |past| == |steps| && G.Legal(s, steps[..i])
    ensures i > 0 ==> G.Shows(past[i - 1], G.Run(s, steps[..i]))
    decreases i
  {
    hide G.Enabled, G.Apply, G.Shows;
    if i > 0 {
      var t := G.Apply(s, steps[0]);
      CommitsShown(t, steps[1..], past[1..], i - 1);
      assert steps[..i][1..] == steps[1..][..i - 1];
      if i == 1 {
        assert steps[..1][1..] == [] && G.Run(t, []) == t;
      } else {
        assert past[1..][i - 2] == past[i - 1];
      }
    }
  }

  /** At every moment all three machines describe the disk there is. */
  lemma Moment(l: Life, i: nat)
    requires Lived(l) && i < |l.past|
    ensures i <= |l.steps| && Legal(INIT, l.steps[..i]) && l.past[i] == LogAt(l, i).disk && Inv(LogAt(l, i))
    ensures G.Legal(G.INIT, l.csteps[..i]) && G.Shows(l.past[i], CommitsAt(l, i)) && G.Inv(CommitsAt(l, i))
    ensures S.Kept(l.past[i], l.written) && Sound(l.past[i])
  {
    hide Inv, G.Inv, Tracks, S.Path, S.Whole, S.AtLeast, Directory;
    EveryMomentIsReachable(l.past, l.steps, Run(INIT, l.steps), i);
    ReachableKeeps(l.steps[..i]);
    CommitsShown(G.INIT, l.csteps, l.past[1..], i);
    G.InitHolds();
    G.RunKeeps(G.INIT, l.csteps[..i]);
    NothingYet(l.written);
    S.NewestNeverFalls(l.past, l.moves, l.written, 0, i);
    if i == 0 {
      assert l.csteps[..0] == [];
    } else {
      assert l.past[i] == l.past[1..][i - 1];
    }
  }

  lemma NothingYet(written: set<S.Snap>)
    ensures S.Kept(EMPTY, written) && G.Shows(EMPTY, G.INIT)
  {
  }

  /** The present is the last of them. */
  lemma ThisMoment(l: Life)
    requires Lived(l)
    ensures LogNow(l) == Run(INIT, l.steps) && CommitsNow(l) == G.Run(G.INIT, l.csteps)
    ensures Now(l) == LogNow(l).disk && Inv(LogNow(l)) && Exact(LogNow(l))
    ensures G.Shows(Now(l), CommitsNow(l)) && G.Inv(CommitsNow(l))
    ensures S.Kept(Now(l), l.written) && Sound(Now(l))
  {
    hide Inv, G.Inv, G.Shows, S.Kept, Exact, Tracks, S.Path, Directory;
    Moment(l, |l.steps|);
    assert l.steps[..|l.steps|] == l.steps && l.csteps[..|l.csteps|] == l.csteps;
    ReachableExact(l.steps);
  }

  /** From one moment to a later one. */
  lemma Between(l: Life, i: nat, j: nat)
    requires Lived(l) && i <= j < |l.past|
    ensures Runs.Remembers(LogAt(l, i), LogAt(l, j)) && LogAt(l, j).acked <= |LogAt(l, j).hist|
    ensures G.Remembers(CommitsAt(l, i), CommitsAt(l, j))
  {
    hide Inv, G.Inv, G.Shows, S.Kept, Tracks, S.Path, Directory, Enabled, Apply, G.Enabled, G.Apply;
    Moment(l, i);
    Moment(l, j);
    WithinHistory(LogAt(l, j));
    assert l.steps[..i] + l.steps[i..j] == l.steps[..j];
    RunInTwo(INIT, l.steps[..i], l.steps[i..j]);
    RunRemembers(LogAt(l, i), l.steps[i..j]);
    assert l.csteps[..i] + l.csteps[i..j] == l.csteps[..j];
    CommitsInTwo(G.INIT, l.csteps[..i], l.csteps[i..j]);
    G.RunKeeps(CommitsAt(l, i), l.csteps[i..j]);
  }

  // ---- What survives ----

  lemma CommittedIs(d: Disk, c: G.State)
    requires G.Shows(d, c) && G.Inv(c)
    ensures Committed(d) == G.Recovered(c)
  {
    hide Scan, EncodeAll, G.Recorded, G.Held, Unframed;
    G.RecoveredIs(c);
  }

  /**
   * Appends, rolls, compactions, snapshots and their failures may come between a commit
   * and a power cut, and the cut between any two operations of any of them: the group
   * resumes where it asked to, in an attempt no earlier than the last that returned.
   */
  lemma CommitAtAnyMoment(l: Life, i: nat, j: nat, shape: Shape, g: bytes) returns (n: nat)
    requires Lived(l) && i <= j < |l.past| && CommitsAt(l, i).named && g in CommitsAt(l, i).returned
    ensures var d, asked := PowerCut(l.past[j], shape), CommitsAt(l, j).asked;
            && g in Committed(d) && CommitsAt(l, i).returned[g] <= n < |asked|
            && asked[n].group == g && asked[n].off == Committed(d)[g]
  {
    hide Inv, G.Inv, G.Shows, S.Kept, Committed, Directory, PowerCut, G.Recovered, CommitsAt, LogAt;
    Moment(l, j);
    Between(l, i, j);
    var c := CommitsAt(l, j);
    G.CutShows(l.past[j], c, shape);
    G.StepKeeps(c, G.Step.Cut(shape));
    G.StepRemembers(c, G.Step.Cut(shape));
    var cut := G.Apply(c, G.Step.Cut(shape));
    CommittedIs(PowerCut(l.past[j], shape), cut);
    n := G.HeldRecovers(cut, g);
  }

  /** No group ever resumes at an offset nobody asked it to, whatever else the program did. */
  lemma NeverUnaskedBeside(l: Life, g: bytes) returns (n: nat)
    requires Lived(l) && g in Committed(Now(l))
    ensures n < |CommitsNow(l).asked| && CommitsNow(l).asked[n].group == g && CommitsNow(l).asked[n].off == Committed(Now(l))[g]
  {
    hide Inv, G.Inv, G.Shows, S.Kept, Committed, Directory, G.Recovered, CommitsAt, LogAt;
    ThisMoment(l);
    CommittedIs(Now(l), CommitsNow(l));
    n := G.NeverUnasked(l.csteps, g);
  }

  /** A snapshot that was durable once is reached by a whole one ever after, whatever is appended, compacted or committed meanwhile. */
  lemma SnapshotAtAnyMoment(l: Life, i: nat, j: nat, shape: Shape, off: nat)
    requires Lived(l) && i <= j < |l.past| && S.AtLeast(l.past[i].durable, off)
    ensures S.Kept(PowerCut(l.past[j], shape), l.written) && S.AtLeast(PowerCut(l.past[j], shape).live, off)
  {
    hide Inv, G.Inv, G.Shows, S.AtLeast, Tracks, S.Path, S.Whole, Directory;
    NothingYet(l.written);
    S.NewestNeverFalls(l.past, l.moves, l.written, 0, i);
    S.NewestNeverFalls(l.past, l.moves, l.written, i, j);
    S.CutKeepsSnapshots(l.past[j], shape, l.written);
  }

  // ---- A life goes on ----

  ghost predicate Extends(l: Life, m: Life) {
    l.past <= m.past && l.steps <= m.steps && l.csteps <= m.csteps && l.moves <= m.moves && l.written <= m.written
  }

  /** The disk has been through `past` since, by these steps of each machine. */
  lemma GoesOn(l: Life, past: seq<Disk>, steps: seq<Step>, s: State, more: seq<G.Step>, moves: seq<S.Move>)
    requires Lived(l) && l.past <= past && Tracks(past, steps, s)
    requires G.Traced(past[|l.past|..], CommitsNow(l), more) && G.Legal(CommitsNow(l), more)
    requires S.Path(past[|l.past| - 1..], moves, l.written)
    ensures var m := Life(past, steps, l.csteps + more, l.moves + moves, l.written);
            Lived(m) && LogNow(m) == s && CommitsNow(m) == G.Run(CommitsNow(l), more)
  {
    hide Inv, G.Inv, G.Shows, S.Kept, Tracks, S.Path, Exact, G.Traced, G.Legal, G.Run, Legal, Run;
    ThisMoment(l);
    TracksLegal(past, steps, s);
    G.TracedThen(l.past[1..], past[|l.past|..], G.INIT, l.csteps, more);
    assert past[1..] == l.past[1..] + past[|l.past|..];
    S.PathThen(l.past, past, l.moves, moves, l.written);
    TracedLength(past[1..], G.INIT, l.csteps + more);
    assert steps[..|steps|] == steps && (l.csteps + more)[..|l.csteps + more|] == l.csteps + more;
  }

  lemma TracedLength(past: seq<Disk>, s: G.State, steps: seq<G.Step>)
    requires G.Traced(past, s, steps)
    ensures |past| == |steps|
  {
  }

  ghost function Further(l: Life, d: Disk, step: Step, cstep: G.Step, move: S.Move): Life {
    Life(l.past + [d], l.steps + [step], l.csteps + [cstep], l.moves + [move], l.written)
  }

  /** One operation, which each of the three has a name for. */
  lemma OneFurther(l: Life, d: Disk, step: Step, cstep: G.Step, move: S.Move)
    requires Lived(l) && Enabled(LogNow(l), step) && Apply(LogNow(l), step).disk == d
    requires G.Enabled(CommitsNow(l), cstep) && G.Shows(d, G.Apply(CommitsNow(l), cstep))
    requires S.Moves(Now(l), d, move, l.written)
    ensures var m := Further(l, d, step, cstep, move);
            && Lived(m) && Extends(l, m) && Now(m) == d
            && LogNow(m) == Apply(LogNow(l), step) && CommitsNow(m) == G.Apply(CommitsNow(l), cstep)
  {
    hide Inv, G.Inv, G.Shows, S.Kept, Tracks, S.Moves, Exact, Enabled, Apply, G.Enabled, G.Apply, G.Traced, G.Legal, G.Run;
    ThisMoment(l);
    TracksStep(l.past, l.steps, LogNow(l), step, d);
    G.TracedOne(d, CommitsNow(l), cstep);
    var past := l.past + [d];
    assert past[|l.past|..] == [d] && past[|l.past| - 1..] == [Now(l), d];
    GoesOn(l, past, l.steps + [step], Apply(LogNow(l), step), [cstep], [move]);
  }

  /** The power goes. */
  ghost function CutShort(l: Life, shape: Shape): Life {
    Further(l, PowerCut(Now(l), shape), Step.Cut(shape), G.Step.Cut(shape), S.Move.Cut(shape))
  }

  lemma CutGoesOn(l: Life, shape: Shape)
    requires Lived(l)
    ensures |LogNow(l).kept| == |LogNow(l).segs|
    ensures var m := CutShort(l, shape);
            && Lived(m) && Extends(l, m) && Now(m) == PowerCut(Now(l), shape)
            && LogNow(m) == CutState(LogNow(l), shape) && CommitsNow(m) == G.Apply(CommitsNow(l), G.Step.Cut(shape))
  {
    hide Inv, G.Inv, G.Shows, S.Kept, Lived, Exact, PowerCut, LogNow, CommitsNow, Now, Extends, CutState, Enabled, Apply, G.Apply, S.Moves,
         Further;
    ThisMoment(l);
    OneCut(LogNow(l), shape);
    Basics(LogNow(l));
    CutStep(LogNow(l), shape);
    G.CutShows(Now(l), CommitsNow(l), shape);
    CutMoves(Now(l), shape, l.written);
    OneFurther(l, PowerCut(Now(l), shape), Step.Cut(shape), G.Step.Cut(shape), S.Move.Cut(shape));
  }

  lemma CutStep(s: State, shape: Shape)
    requires |s.kept| == |s.segs|
    ensures Enabled(s, Step.Cut(shape)) && Apply(s, Step.Cut(shape)) == CutState(s, shape)
  {
    hide CutState;
  }

  lemma CutMoves(d: Disk, shape: Shape, written: set<S.Snap>)
    requires Sound(d)
    ensures S.Moves(d, PowerCut(d, shape), S.Move.Cut(shape), written)
  {
  }

  // ---- Within the log ----

  /** Every snapshot there is, to be seen or durable, is at or below `n`. */
  ghost predicate Beneath(d: Disk, n: nat) {
    forall off: nat :: S.AtLeast(d.live, off) || S.AtLeast(d.durable, off) ==> off <= n
  }

  /** Every offset anybody asked to commit is at or below `n`. */
  ghost predicate AskedBeneath(c: G.State, n: nat) {
    forall i :: 0 <= i < |c.asked| ==> c.asked[i].off <= n
  }

  ghost predicate Asks(step: G.Step) {
    step.Write? || step.ShortWrite?
  }

  /** Nothing was committed or snapshotted above what was acknowledged at the time. */
  ghost predicate Prudent(l: Life) {
    && (forall k :: 0 <= k < |l.csteps| && Asks(l.csteps[k]) ==> l.csteps[k].ask.off <= LogAt(l, k).acked)
    && (forall k :: 0 <= k < |l.moves| && l.moves[k].SwapIn? ==> l.moves[k].snap.off <= LogAt(l, k).acked)
  }

  lemma MoveBeneath(d: Disk, e: Disk, move: S.Move, written: set<S.Snap>, n: nat)
    requires S.Moves(d, e, move, written) && Beneath(d, n) && (move.SwapIn? ==> move.snap.off <= n)
    ensures Beneath(e, n)
  {
    hide ParseSnapshotName, SnapshotName, Encode, Framable, Directory, Holds;
    match move
    case Touch =>
      S.SameReach(d.live, e.live);
      S.SameReach(d.durable, e.durable);
    case SwapIn(tmp, s) =>
      ParseSnapshotNameOfName(s.off);
      forall off: nat | S.AtLeast(e.live, off) ensures off <= n {
        var name :| name in e.live && ParseSnapshotName(name).Some? && ParseSnapshotName(name).value >= off;
        if name != SnapshotName(s.off) {
          assert name in d.live && S.AtLeast(d.live, off);
        }
      }
    case RemoveOld(name, keep) =>
      forall off: nat | S.AtLeast(e.live, off) ensures S.AtLeast(d.live, off) {
        var m :| m in e.live && ParseSnapshotName(m).Some? && ParseSnapshotName(m).value >= off;
        assert m in d.live;
      }
    case SyncDirectory =>
    case Cut(_) =>
  }

  lemma StepBeneath(c: G.State, step: G.Step, n: nat)
    requires G.Enabled(c, step) && AskedBeneath(c, n) && (Asks(step) ==> step.ask.off <= n)
    ensures AskedBeneath(G.Apply(c, step), n)
  {
    hide Scan, Encode, Framable, EncodeAll, Survives;
  }

  /**
   * A program that commits and snapshots only what the log has acknowledged never finds a
   * commit or a snapshot beyond the log's tail: at no moment, and after no power cut.
   */
  lemma {:induction false} NothingBeyondTheTail(l: Life, j: nat)
    requires Lived(l) && Prudent(l) && j < |l.past|
    ensures AskedBeneath(CommitsAt(l, j), LogAt(l, j).acked) && Beneath(l.past[j], LogAt(l, j).acked)
    ensures forall g :: g in Committed(l.past[j]) ==> Committed(l.past[j])[g] <= LogAt(l, j).acked
    ensures LogAt(l, j).acked <= |LogAt(l, j).hist|
    decreases j
  {
    hide Inv, G.Inv, S.Kept, Tracks, Committed, Beneath, G.Shows, Directory, G.Enabled, G.Apply, Enabled, Apply, S.Moves;
    Moment(l, j);
    Between(l, j, j);
    if j == 0 {
      assert l.csteps[..0] == [] && G.Run(G.INIT, []) == G.INIT;
      NothingBeneath(LogAt(l, 0).acked);
    } else {
      NothingBeyondTheTail(l, j - 1);
      Between(l, j - 1, j);
      CommitsStep(l, j - 1);
      var n := LogAt(l, j).acked;
      MoreBeneath(l.past[j - 1], LogAt(l, j - 1).acked, n);
      StepBeneath(CommitsAt(l, j - 1), l.csteps[j - 1], n);
      MoveBeneath(l.past[j - 1], l.past[j], l.moves[j - 1], l.written, n);
    }
    AskedThenCommitted(l.past[j], CommitsAt(l, j), LogAt(l, j).acked);
  }

  lemma NothingBeneath(n: nat)
    ensures Beneath(EMPTY, n)
  {
  }

  lemma MoreBeneath(d: Disk, n: nat, m: nat)
    requires Beneath(d, n) && n <= m
    ensures Beneath(d, m)
  {
    hide S.AtLeast;
  }

  lemma CommitsStep(l: Life, i: nat)
    requires Lived(l) && i < |l.csteps|
    ensures G.Enabled(CommitsAt(l, i), l.csteps[i]) && CommitsAt(l, i + 1) == G.Apply(CommitsAt(l, i), l.csteps[i])
  {
    hide G.Enabled, G.Apply, Tracks, S.Path, Legal, Run;
    assert l.csteps[..i + 1] + l.csteps[i + 1..] == l.csteps;
    CommitsInTwo(G.INIT, l.csteps[..i + 1], l.csteps[i + 1..]);
    assert l.csteps[..i] + [l.csteps[i]] == l.csteps[..i + 1];
    CommitsInTwo(G.INIT, l.csteps[..i], [l.csteps[i]]);
    assert [l.csteps[i]][1..] == [];
  }

  lemma AskedThenCommitted(d: Disk, c: G.State, n: nat)
    requires G.Shows(d, c) && G.Inv(c) && AskedBeneath(c, n)
    ensures forall g :: g in Committed(d) ==> Committed(d)[g] <= n
  {
    hide Scan, EncodeAll, Unframed, G.Held, G.LastPerGroup, Framable;
    CommittedIs(d, c);
    G.RecoveredIs(c);
    forall g | g in Committed(d) ensures Committed(d)[g] <= n {
      var i := G.LastRecordWins(c.recs, c.from, c.asked, g);
    }
  }

  /** An offset is within the log whatever comes, if and only if it is acknowledged now. */
  lemma WithinWhateverComes(l: Life, off: nat)
    requires Lived(l)
    ensures off <= LogNow(l).acked <==> forall m :: Lived(m) && Extends(l, m) ==> off <= |LogNow(m).hist|
  {
    hide Inv, G.Inv, S.Kept, Tracks, G.Shows, Directory, Exact, CutState, S.Path, G.Traced, G.Legal, G.Run, Legal, Run;
    if off <= LogNow(l).acked {
      forall m | Lived(m) && Extends(l, m) ensures off <= |LogNow(m).hist| {
        Between(m, |l.steps|, |m.steps|);
        assert m.steps[..|l.steps|] == l.steps[..|l.steps|];
      }
    } else {
      ThisMoment(l);
      CutGoesOn(l, Reverted);
      RevertedTail(LogNow(l));
      assert Lived(CutShort(l, Reverted));
    }
  }

  /** The group made no attempt after this one. */
  ghost predicate LastAttempt(c: G.State, g: bytes, n: nat) {
    forall k :: n < k < |c.asked| ==> c.asked[k].group != g
  }

  /** Where a group resumes in a life that goes on without its committing again: exactly where it did. */
  lemma ResumesThere(l: Life, m: Life, g: bytes)
    requires Lived(l) && Lived(m) && Extends(l, m) && CommitsNow(l).named && g in CommitsNow(l).returned
    requires LastAttempt(CommitsNow(m), g, CommitsNow(l).returned[g])
    ensures var n := CommitsNow(l).returned[g];
            n < |CommitsNow(l).asked| && g in Committed(Now(m)) && Committed(Now(m))[g] == CommitsNow(l).asked[n].off
  {
    hide Inv, S.Kept, Tracks, G.Shows, Directory, Exact, S.Path, G.Traced, G.Legal, G.Run, Legal, Run, Committed, G.Recovered, EncodeAll,
         G.Recorded, Unframed;
    ThisMoment(l);
    ThisMoment(m);
    assert m.csteps[..|l.csteps|] == l.csteps[..|l.csteps|];
    Between(m, |l.steps|, |m.steps|);
    CommittedIs(Now(m), CommitsNow(m));
    var n := G.HeldRecovers(CommitsNow(m), g);
  }

  /**
   * So a commit at or below what is acknowledged is at or below the tail whatever comes,
   * and a commit above it is not: the power has only to go before the next sync.
   */
  lemma CommitStaysWithin(l: Life, g: bytes)
    requires Lived(l) && CommitsNow(l).named && g in CommitsNow(l).returned
    requires LastAttempt(CommitsNow(l), g, CommitsNow(l).returned[g])
    ensures CommitsNow(l).returned[g] < |CommitsNow(l).asked|
    ensures CommitsNow(l).asked[CommitsNow(l).returned[g]].off <= LogNow(l).acked <==>
            forall m :: Lived(m) && Extends(l, m) && LastAttempt(CommitsNow(m), g, CommitsNow(l).returned[g]) ==>
              g in Committed(Now(m)) && Committed(Now(m))[g] <= |LogNow(m).hist|
  {
    hide Inv, S.Kept, Lived, G.Shows, G.Inv, Directory, Exact, Committed, LogNow, CommitsNow, Now, Extends, CutState, PowerCut, CutShort,
         G.Apply;
    ThisMoment(l);
    HeldAsked(CommitsNow(l), g);
    var n := CommitsNow(l).returned[g];
    var off := CommitsNow(l).asked[n].off;
    Selves(l);
    ResumesThere(l, l, g);
    if off <= LogNow(l).acked {
      WithinWhateverComes(l, off);
      forall m | Lived(m) && Extends(l, m) && LastAttempt(CommitsNow(m), g, n)
        ensures g in Committed(Now(m)) && Committed(Now(m))[g] <= |LogNow(m).hist|
      {
        ResumesThere(l, m, g);
      }
    } else {
      CutGoesOn(l, Reverted);
      var m := CutShort(l, Reverted);
      CutAsksNothing(CommitsNow(l), Reverted);
      ResumesThere(l, m, g);
      RevertedTail(LogNow(l));
    }
  }

  lemma HeldAsked(c: G.State, g: bytes)
    requires G.Inv(c) && g in c.returned
    ensures c.returned[g] < |c.asked|
  {
    hide EncodeAll, G.Recorded, Unframed;
  }

  lemma Selves(l: Life)
    requires Lived(l)
    ensures Extends(l, l)
  {
  }

  lemma CutAsksNothing(c: G.State, shape: Shape)
    ensures G.Apply(c, G.Step.Cut(shape)).asked == c.asked
  {
    hide Scan, Survives;
  }

  /** Likewise a snapshot: one that is durable and above what is acknowledged is refused after the wrong power cut, and no other. */
  lemma SnapshotStaysWithin(l: Life, off: nat)
    requires Lived(l) && S.AtLeast(Now(l).durable, off)
    ensures off <= LogNow(l).acked <==>
            forall m :: Lived(m) && Extends(l, m) ==> off <= |LogNow(m).hist| && S.AtLeast(Now(m).live, off)
  {
    hide Inv, S.Kept, Lived, G.Shows, G.Inv, Directory, Exact, LogAt, CommitsAt, Extends, S.AtLeast;
    WithinWhateverComes(l, off);
    forall m | Lived(m) && Extends(l, m) ensures S.AtLeast(Now(m).live, off) {
      StillReached(l, m, off);
    }
  }

  lemma StillReached(l: Life, m: Life, off: nat)
    requires Lived(l) && Lived(m) && Extends(l, m) && S.AtLeast(Now(l).durable, off)
    ensures S.AtLeast(Now(m).live, off)
  {
    hide Tracks, S.AtLeast, S.Moves, S.Whole, G.Traced, G.Legal, G.Run, Legal, Run;
    NothingYet(m.written);
    S.NewestNeverFalls(m.past, m.moves, m.written, 0, |l.past| - 1);
    S.NewestNeverFalls(m.past, m.moves, m.written, |l.past| - 1, |m.past| - 1);
  }

  // ---- A commit beyond the tail ----

  const BORN: Life := Life([EMPTY], [], [], [], {})

  lemma BornLived()
    ensures Lived(BORN) && LogNow(BORN) == INIT && CommitsNow(BORN) == G.INIT && Now(BORN) == EMPTY
  {
    NothingYet({});
    assert BORN.steps[..0] == [] && BORN.csteps[..0] == [] && BORN.past[1..] == [];
  }

  /** To the snapshots, what anybody else does is nothing at all, or a directory sync. */
  ghost function BesideMove(d: Disk, e: Disk): S.Move {
    if e == DirSynced(d) then S.Move.SyncDirectory else S.Touch
  }

  lemma BesideMoves(d: Disk, e: Disk, o: Owner, written: set<S.Snap>)
    requires Sound(d) && Sound(e) && Minds(d, e, o) && o != TheSnapshots
    ensures S.Moves(d, e, BesideMove(d, e), written)
  {
    hide Keeps, S.SnapshotsUntouched, Directory;
    if e != DirSynced(d) {
      S.KeepsSnapshots(d, e, o);
    }
  }

  /** A step of the log's. */
  lemma LogFurther(l: Life, step: Step) returns (m: Life)
    requires Lived(l) && Enabled(LogNow(l), step) && !step.Other? && !step.Cut?
    ensures var d, e := Now(l), Apply(LogNow(l), step).disk;
            && m == Further(l, e, step, G.Beside(d, e, CommitsNow(l)), BesideMove(d, e))
            && G.Enabled(CommitsNow(l), G.Beside(d, e, CommitsNow(l)))
            && Lived(m) && LogNow(m) == Apply(LogNow(l), step) && CommitsNow(m) == G.Apply(CommitsNow(l), G.Beside(d, e, CommitsNow(l)))
  {
    hide Inv, G.Inv, G.Shows, S.Kept, Lived, Exact, LogNow, CommitsNow, Now, Extends, Enabled, Apply, G.Enabled, G.Apply, Minds, S.Moves,
         Further, Directory;
    ThisMoment(l);
    var s, d, e := LogNow(l), Now(l), Apply(LogNow(l), step).disk;
    StepMinds(s, step);
    StepKeeps(s, step);
    Basics(Apply(s, step));
    G.BesideShows(d, e, TheLog, CommitsNow(l));
    BesideMoves(d, e, TheLog, l.written);
    OneFurther(l, e, step, G.Beside(d, e, CommitsNow(l)), BesideMove(d, e));
    m := Further(l, e, step, G.Beside(d, e, CommitsNow(l)), BesideMove(d, e));
  }

  /** An operation on the commits file. */
  lemma CommitFurther(l: Life, d: Disk, step: G.Step) returns (m: Life)
    requires Lived(l) && Keeps(Now(l), d, TheCommits) && Sound(d)
    requires G.Enabled(CommitsNow(l), step) && G.Shows(d, G.Apply(CommitsNow(l), step))
    ensures m == Further(l, d, Other(d), step, S.Touch)
    ensures Lived(m) && Now(m) == d && LogNow(m) == LogNow(l).(disk := d) && CommitsNow(m) == G.Apply(CommitsNow(l), step)
  {
    hide Inv, G.Inv, G.Shows, S.Kept, Lived, Exact, LogNow, CommitsNow, Now, Extends, Enabled, Apply, G.Enabled, G.Apply, Keeps, Further,
         SegmentsUntouched, S.SnapshotsUntouched, Directory;
    ThisMoment(l);
    KeepsSegments(Now(l), d, TheCommits);
    MayTouchOthers(LogNow(l), d);
    S.KeepsSnapshots(Now(l), d, TheCommits);
    OneFurther(l, d, Other(d), step, S.Touch);
    m := Further(l, d, Other(d), step, S.Touch);
  }

  /** A first segment, its name made durable, and one record that is not synced. */
  lemma OneUnsynced(e: Event) returns (l: Life)
    requires Framable(e)
    ensures Lived(l) && l.csteps == [G.Idle, G.Idle, G.Idle] && l.steps == [CreateSegment, SyncDirectory, Write([e])]
    ensures CommitsNow(l) == G.INIT && LogNow(l).hist == [e] && LogNow(l).acked == 0 && LogNow(l).up && LogNow(l).segs != []
  {
    hide Inv, G.Inv, G.Shows, S.Kept, Lived, Exact, LogNow, CommitsNow, Now, Extends, Enabled, Apply, BesideMove, SegmentName, EncodeAll,
         Stamp, Framable;
    BornLived();
    InitHolds();
    MayCreate(INIT);
    l := LogFurther(BORN, CreateSegment);
    ThisMoment(l);
    MaySyncDirectory(LogNow(l));
    l := LogFurther(l, SyncDirectory);
    ThisMoment(l);
    MayWrite(LogNow(l), [e]);
    l := LogFurther(l, Write([e]));
  }

  /** A group's first commit, and nothing gone wrong: the file, its name, the record, its sync. */
  lemma OneCommit(l: Life, a: G.Ask) returns (m: Life)
    requires Lived(l) && CommitsNow(l) == G.INIT && LogNow(l).up && LogNow(l).segs != []
    requires a.off < TWO64 && Framable(G.CommitEvent(a))
    ensures Lived(m) && m.csteps == l.csteps + [G.Create, G.SyncDirectory, G.Write(a), G.SyncReturns] && l.steps <= m.steps
    ensures LogNow(m).hist == LogNow(l).hist && LogNow(m).acked == LogNow(l).acked
    ensures CommitsNow(m).named && CommitsNow(m).asked == [a] && CommitsNow(m).returned == map[a.group := 0]
  {
    hide Inv, G.Inv, S.Kept, Lived, Exact, LogNow, CommitsNow, Now, Extends, Enabled, Apply, BesideMove, Encode, Keeps, G.Shows,
         Framable, Directory;
    ThisMoment(l);
    var d := Created(Now(l), COMMITS_FILE);
    G.CommitsAreApart(Now(l), CommitsNow(l), [], 0);
    G.CreateShows(Now(l), CommitsNow(l));
    OperationsAreSound(Now(l), COMMITS_FILE, COMMITS_FILE);
    m := CommitFurther(l, d, G.Create);
    ThisMoment(m);
    MaySyncDirectory(LogNow(m));
    m := LogFurther(m, SyncDirectory);
    m := WriteFurther(m, a);
    m := SyncFurther(m);
  }

  lemma WriteFurther(l: Life, a: G.Ask) returns (m: Life)
    requires Lived(l) && G.Askable(CommitsNow(l), a)
    ensures Lived(m) && m.csteps == l.csteps + [G.Write(a)] && l.steps <= m.steps
    ensures CommitsNow(m) == G.Apply(CommitsNow(l), G.Write(a))
    ensures LogNow(m) == LogNow(l).(disk := Now(m))
  {
    hide Inv, S.Kept, Lived, Exact, LogNow, CommitsNow, Now, Extends, Enabled, Apply, Encode, Keeps, G.Shows, Framable, G.Recorded, G.Held,
         EncodeAll, Unframed;
    ThisMoment(l);
    var c, d, p := CommitsNow(l), Now(l), G.Written(CommitsNow(l), a);
    G.CommitsAreApart(d, c, p, 0);
    NodeIsThere(d, c);
    G.AppendShows(d, c, p, G.Apply(c, G.Write(a)));
    m := CommitFurther(l, Appended(d, d.live[COMMITS_FILE], p), G.Write(a));
  }

  lemma SyncFurther(l: Life) returns (m: Life)
    requires Lived(l) && CommitsNow(l).pending
    ensures G.Enabled(CommitsNow(l), G.SyncReturns)
    ensures Lived(m) && m.csteps == l.csteps + [G.SyncReturns] && l.steps <= m.steps
    ensures CommitsNow(m) == G.Apply(CommitsNow(l), G.SyncReturns)
    ensures LogNow(m) == LogNow(l).(disk := Now(m))
  {
    hide Inv, S.Kept, Lived, Exact, LogNow, CommitsNow, Now, Extends, Enabled, Apply, Encode, Keeps, Framable, G.Recorded, G.Held,
         EncodeAll, Unframed;
    ThisMoment(l);
    var c, d := CommitsNow(l), Now(l);
    G.PendingIsLast(c);
    G.CommitsAreApart(d, c, [], 0);
    NodeIsThere(d, c);
    m := CommitFurther(l, FileSynced(d, d.live[COMMITS_FILE]), G.SyncReturns);
  }

  lemma NodeIsThere(d: Disk, c: G.State)
    requires G.Shows(d, c) && c.exists_
    ensures COMMITS_FILE in d.live && d.live[COMMITS_FILE] < |d.inodes|
  {
  }

  /** A record is written and not synced, a group commits up to it, and the power goes: it resumes beyond the tail. */
  lemma CommitBeyondTheTail(e: Event, g: bytes, time: int64) returns (l: Life)
    requires Framable(e) && Framable(G.CommitEvent(G.Ask(g, 1, time)))
    ensures Lived(l) && |LogNow(l).hist| == 0 && g in Committed(Now(l)) && Committed(Now(l))[g] == 1
    ensures l.csteps == [G.Idle, G.Idle, G.Idle, G.Create, G.SyncDirectory, G.Write(G.Ask(g, 1, time)), G.SyncReturns, G.Cut(Reverted)]
    ensures [CreateSegment, SyncDirectory, Write([e])] <= l.steps
  {
    hide Inv, G.Inv, G.Shows, S.Kept, Lived, Exact, LogNow, CommitsNow, Now, Enabled, Apply, CutState, PowerCut, Committed,
         Framable;
    var unsynced := OneUnsynced(e);
    var committed := OneCommit(unsynced, G.Ask(g, 1, time));
    ThisMoment(committed);
    CutGoesOn(committed, Reverted);
    RevertedTail(LogNow(committed));
    CutAsksNothing(CommitsNow(committed), Reverted);
    l := CutShort(committed, Reverted);
    ResumesThere(committed, l, g);
  }
}
