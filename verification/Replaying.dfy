/**
 * What snapshots and replays are for (log/snapshot.go, log/reader.go): loading a state and
 * folding in everything after it is the same as folding everything, on a log that has not
 * been compacted and up to what was acknowledged.
 */
module Replaying {
  import opened Bytes
  import opened Events
  import opened Records
  import opened Recovery
  import opened SparseIndex
  import opened Names
  import opened Disks
  import opened Segments
  import opened Durability
  import opened Preservation
  import opened Runs
  import opened Readers

  /** A projection: any fold over events. */
  function Fold<S>(f: (S, Event) -> S, z: S, events: seq<Event>): S {
    if events == [] then z else f(Fold(f, z, events[..|events| - 1]), events[|events| - 1])
  }

  lemma {:induction false} FoldInTwo<S>(f: (S, Event) -> S, z: S, a: seq<Event>, b: seq<Event>)
    ensures Fold(f, z, a + b) == Fold(f, Fold(f, z, a), b)
    decreases |b|
  {
    if b == [] {
      assert a + b == a;
    } else {
      var n := |b| - 1;
      assert (a + b)[..|a + b| - 1] == a + b[..n] && (a + b)[|a + b| - 1] == b[n];
      FoldInTwo(f, z, a, b[..n]);
    }
  }

  /** Collecting the events is a fold too. */
  function Collect(so: seq<Event>, e: Event): seq<Event> {
    so + [e]
  }

  lemma {:induction false} Collected(z: seq<Event>, events: seq<Event>)
    ensures Fold(Collect, z, events) == z + events
    decreases |events|
  {
    if events == [] {
      assert z + events == z;
    } else {
      Collected(z, events[..|events| - 1]);
      assert z + events == (z + events[..|events| - 1]) + [events[|events| - 1]];
    }
  }

  // ---- A run that never compacts drops nothing ----

  /** No segment has lost a record, on disk or in what a power cut would leave. */
  ghost predicate Gapless(s: State) {
    && |s.kept| == |s.segs|
    && forall i :: 0 <= i < |s.segs| - 1 ==> |s.segs[i].recs| == |s.kept[i]| == End(s, i) - s.segs[i].base
  }

  lemma CutGapless(s: State, shape: Shape)
    requires Inv(s) && Gapless(s)
    ensures Gapless(CutState(s, shape))
  {
    hide Tiled, Filed, CutState, CutRaw, Shortened, Gapless, Durable, PowerCut;
    KeptPerSegment(s);
    var k, t := CutKeeps(s, shape);
    if Durable(s) > 0 {
      CutRawGapless(s, shape);
      ShortenedGapless(CutRaw(s, shape), k, t);
    } else {
      CutEmpty(s, shape);
      NoSegments(INIT.(disk := PowerCut(s.disk, shape)));
    }
  }

  lemma NoSegments(s: State)
    requires s.segs == [] && s.kept == []
    ensures Gapless(s)
  {
  }

  lemma CutRawGapless(s: State, shape: Shape)
    requires Gapless(s) && |s.kept| == |s.segs| && Durable(s) > 0
    ensures Gapless(CutRaw(s, shape)) && CutRaw(s, shape).segs != [] && CutRaw(s, shape).hist == s.hist
  {
    hide PowerCut;
    var raw := CutRaw(s, shape);
    assert forall i :: 0 <= i < |raw.segs| ==> raw.segs[i].base == s.segs[i].base;
  }

  lemma ShortenedGapless(s: State, k: nat, t: bytes)
    requires Gapless(s) && s.segs != [] && k <= |Active(s).recs| && Active(s).base + k <= |s.hist|
    ensures Gapless(Shortened(s, k, t))
  {
  }

  lemma ShortWriteGapless(s: State, events: seq<Event>, t: State, k: nat, tail: bytes)
    requires Gapless(s) && WroteSome(s, events, t, k, tail)
    ensures Gapless(t)
  {
    hide EncodeAll, SegmentName;
  }

  lemma CreateGapless(s: State)
    requires Inv(s) && Gapless(s) && Enabled(s, CreateSegment)
    ensures Gapless(Apply(s, CreateSegment))
  {
    hide Stored, EncodeAll, SegmentName, SealedTiled, AllFramable, Created, Stamp;
    if s.segs != [] {
      StampedFrom(s.hist, Active(s).base);
    }
    var t := AfterCreate(s);
    assert forall i :: 0 <= i < |s.segs| ==> t.segs[i] == s.segs[i];
  }

  lemma StepGapless(s: State, step: Step)
    requires Inv(s) && Gapless(s) && Enabled(s, step) && !step.Swap?
    ensures Gapless(Apply(s, step))
  {
    hide Inv, EncodeAll, SegmentName, CutState, Rescanned, Stamp;
    match step
    case ShortWrite(events, stored) =>
      var k, t := ShortWriteKeeps(s, events, stored);
      ShortWriteGapless(s, events, Apply(s, step), k, t);
    case CreateSegment => CreateGapless(s);
    case Cut(shape) => CutGapless(s, shape);
    case Write(events) =>
    case SyncActive =>
    case SyncDirectory =>
    case Other(_) =>
    case Kill =>
    case Reopen =>
  }

  ghost predicate NeverCompacts(steps: seq<Step>) {
    forall i :: 0 <= i < |steps| ==> !steps[i].Swap?
  }

  lemma {:induction false} RunGapless(s: State, steps: seq<Step>)
    requires Inv(s) && Gapless(s) && Legal(s, steps) && NeverCompacts(steps)
    ensures Gapless(Run(s, steps))
    decreases |steps|
  {
    hide Inv, Gapless, Enabled, Apply;
    if steps != [] {
      StepGapless(s, steps[0]);
      StepKeeps(s, steps[0]);
      assert forall i :: 0 <= i < |steps| - 1 ==> steps[1..][i] == steps[i + 1];
      RunGapless(Apply(s, steps[0]), steps[1..]);
    }
  }

  /** As many ascending offsets as there are places for them leave no gap. */
  lemma {:induction false} Filled(lo: nat, hi: nat, rs: seq<Rec>, j: nat)
    requires Ascending(lo, rs) && |rs| == hi - lo && (forall k :: 0 <= k < |rs| ==> rs[k].offset < hi) && j < |rs|
    ensures rs[j].offset == lo + j
  {
    NoLower(lo, rs, j);
    NoHigher(hi, rs, j);
  }

  lemma {:induction false} NoLower(lo: nat, rs: seq<Rec>, j: nat)
    requires Ascending(lo, rs) && j < |rs|
    ensures lo + j <= rs[j].offset
    decreases j
  {
    if j > 0 {
      NoLower(lo, rs, j - 1);
    }
  }

  lemma {:induction false} NoHigher(hi: nat, rs: seq<Rec>, j: nat)
    requires j < |rs| && (forall k :: 0 <= k < |rs| ==> rs[k].offset < hi)
    requires forall k, l :: 0 <= k < l < |rs| ==> rs[k].offset < rs[l].offset
    ensures rs[j].offset + (|rs| - j) <= hi
    decreases |rs| - j
  {
    if j + 1 < |rs| {
      NoHigher(hi, rs, j + 1);
    }
  }

  /** On a log that was never compacted every offset is still there. */
  lemma EveryOffsetSurvives(s: State, off: nat)
    requires Inv(s) && Gapless(s) && off < |s.hist|
    ensures Surviving(s.segs, Rec(off, s.hist[off]))
  {
    hide Inv, Gapless, Ascending;
    HasSegments(s);
    var i := SegmentWith(s, off);
    SegmentsEnd(s, i);
    Populated(s, i);
    var rs, j := s.segs[i].recs, off - s.segs[i].base;
    forall k | 0 <= k < |rs| ensures rs[k].offset < End(s, i) {
      WithinSegment(s.segs[i].base, rs, k);
    }
    Filled(s.segs[i].base, End(s, i), rs, j);
    OnlyHistory(s, i, j);
    assert rs[j] == Rec(off, s.hist[off]);
  }

  lemma HasSegments(s: State)
    requires Inv(s) && s.hist != []
    ensures s.segs != []
  {
    hide Stored, SealedTiled, ActiveTiled, AllFramable;
  }

  lemma SegmentWith(s: State, off: nat) returns (i: nat)
    requires Inv(s) && off < |s.hist| && s.segs != []
    ensures i < |s.segs| && s.segs[i].base <= off < End(s, i)
  {
    hide Stored, Tiled;
    i := SegmentOf(s, off, |s.segs|);
  }

  lemma Populated(s: State, i: nat)
    requires Inv(s) && Gapless(s) && i < |s.segs|
    ensures s.segs[i].base <= End(s, i) && |s.segs[i].recs| == End(s, i) - s.segs[i].base
  {
    hide Stored, SealedTiled, AllFramable;
    BasesFit(s);
    StampedFrom(s.hist, Active(s).base);
  }

  /** A cursor that has read such a log to its end has delivered its history. */
  lemma WholeDelivery(s: State, start: nat, out: seq<Rec>)
    requires Inv(s) && Gapless(s) && start <= |s.hist| && Delivered(start, |s.hist|, s.segs, s.hist, out)
    ensures EventsOf(out) == s.hist[start..]
  {
    hide Inv, Gapless, Surviving;
    forall off | start <= off < |s.hist| ensures Rec(off, s.hist[off]) in out {
      EveryOffsetSurvives(s, off);
    }
    forall k | 0 <= k < |out| ensures out[k].offset == start + k && start + k < |s.hist| && out[k].event == s.hist[start + k] {
      InTurn(start, s.hist, out, k);
      assert out[k].offset < |s.hist|;
    }
    AllOfIt(start, s.hist, out);
  }

  lemma AllOfIt(start: nat, hist: seq<Event>, out: seq<Rec>)
    requires start <= |hist| && forall off :: start <= off < |hist| ==> Rec(off, hist[off]) in out
    requires forall k :: 0 <= k < |out| ==> out[k].offset == start + k && start + k < |hist| && out[k].event == hist[start + k]
    ensures EventsOf(out) == hist[start..]
  {
    if start + |out| < |hist| {
      var _ := Where(out, Rec(start + |out|, hist[start + |out|]));
    }
    assert out != [] ==> out[|out| - 1].offset == start + (|out| - 1);
  }

  lemma Where(out: seq<Rec>, r: Rec) returns (k: nat)
    requires r in out
    ensures k < |out| && out[k] == r
  {
    k :| k < |out| && out[k] == r;
  }

  lemma {:induction false} InTurn(start: nat, hist: seq<Event>, out: seq<Rec>, k: nat)
    requires forall i :: 0 <= i < |out| ==> start <= out[i].offset < |hist|
    requires forall i, j :: 0 <= i < j < |out| ==> out[i].offset < out[j].offset
    requires forall off :: start <= off < |hist| ==> Rec(off, hist[off]) in out
    requires k < |out|
    ensures out[k].offset == start + k
    decreases k
  {
    if k > 0 {
      InTurn(start, hist, out, k - 1);
    }
    if out[k].offset != start + k {
      var m :| 0 <= m < |out| && out[m] == Rec(start + k, hist[start + k]);
      if m < k {
        InTurn(start, hist, out, m);
      }
    }
  }

  /**
   * Restoring. Take any run, and a snapshot folded to an offset that was acknowledged when
   * it was taken. After any continuation, power cuts included, in which nothing is
   * compacted, replaying what a cursor at that offset delivers onto the snapshot gives what
   * replaying the whole log would, for every projection.
   */
  lemma RestoreReplays<S>(f: (S, Event) -> S, z: S, before: seq<Step>, after: seq<Step>, off: nat, out: seq<Rec>)
    requires Legal(INIT, before) && NeverCompacts(before) && Legal(Run(INIT, before), after) && NeverCompacts(after)
    requires off <= Run(INIT, before).acked
    requires var t := Run(Run(INIT, before), after);
             off <= |t.hist| ==> Delivered(off, |t.hist|, t.segs, t.hist, out)
    ensures var s, t := Run(INIT, before), Run(Run(INIT, before), after);
            && off <= |s.hist| && off <= |t.hist|
            && Fold(f, Fold(f, z, s.hist[..off]), EventsOf(out)) == Fold(f, z, t.hist)
  {
    hide Inv, Gapless, Enabled, Apply, Delivered, Fold;
    var s := Run(INIT, before);
    InitHolds();
    StartsGapless();
    ReachableKeeps(before);
    RunGapless(INIT, before);
    RunKeeps(s, after);
    RunGapless(s, after);
    RunRemembers(s, after);
    var t := Run(s, after);
    WholeDelivery(t, off, out);
    assert s.hist[..off] == t.hist[..off] && t.hist == t.hist[..off] + t.hist[off..];
    FoldInTwo(f, z, t.hist[..off], t.hist[off..]);
  }

  lemma StartsGapless()
    ensures Gapless(INIT)
  {
  }

  /**
   * And why it must have been acknowledged: when the log still begins with what was folded,
   * a replay onto a snapshot is a replay of the whole log, whatever the projection; and when
   * it does not, there is a projection for which it is not.
   */
  lemma RestoreNeedsTheSamePast<S>(f: (S, Event) -> S, z: S, folded: seq<Event>, now: seq<Event>, off: nat)
    requires off <= |folded| && off <= |now|
    ensures folded[..off] == now[..off] ==> Fold(f, Fold(f, z, folded[..off]), now[off..]) == Fold(f, z, now)
    ensures Fold(Collect, Fold(Collect, [], folded[..off]), now[off..]) == Fold(Collect, [], now) <==> folded[..off] == now[..off]
  {
    hide Fold, Collect;
    SamePastSuffices(f, z, folded, now, off);
    SamePastIsNeeded(folded, now, off);
  }

  lemma SamePastSuffices<S>(f: (S, Event) -> S, z: S, folded: seq<Event>, now: seq<Event>, off: nat)
    requires off <= |folded| && off <= |now|
    ensures folded[..off] == now[..off] ==> Fold(f, Fold(f, z, folded[..off]), now[off..]) == Fold(f, z, now)
  {
    hide Fold;
    FoldInTwo(f, z, now[..off], now[off..]);
    assert now[..off] + now[off..] == now;
  }

  lemma SamePastIsNeeded(folded: seq<Event>, now: seq<Event>, off: nat)
    requires off <= |folded| && off <= |now|
    ensures Fold(Collect, Fold(Collect, [], folded[..off]), now[off..]) == Fold(Collect, [], now) <==> folded[..off] == now[..off]
  {
    hide Fold, Collect;
    var a, b := folded[..off], now[off..];
    CollectedAll(a);
    CollectedAll(now);
    Collected(a, b);
    SamePrefix(a, now);
  }

  lemma CollectedAll(events: seq<Event>)
    ensures Fold(Collect, [], events) == events
  {
    hide Fold, Collect;
    Collected([], events);
    assert [] + events == events;
  }

  lemma SamePrefix(a: seq<Event>, now: seq<Event>)
    requires |a| <= |now|
    ensures a + now[|a|..] == now <==> a == now[..|a|]
  {
    assert now[..|a|] + now[|a|..] == now && (a + now[|a|..])[..|a|] == a;
  }
}
