/**
 * What `Log.Append` means: one event at a time, rolling to a new segment whenever the
 * active one is full, up to the first event that cannot be framed. The batch path of
 * log/log.go and log/segment.go takes as many events per segment as fit in one write;
 * it is the same thing.
 */
module Appending {
  import opened Wrappers
  import opened Bytes
  import opened Events
  import opened Records
  import opened Recovery
  import opened Segments
  import opened Durability

  function Last(segs: seq<Seg>): Seg
    requires segs != []
  {
    segs[|segs| - 1]
  }

  function Next(segs: seq<Seg>): nat
    requires segs != []
  {
    NextOf(Last(segs).base, Last(segs).recs)
  }

  predicate Full(seg: Seg, limit: nat) {
    |EncodeAll(seg.recs)| >= limit
  }

  /** `roll`, if it is due. */
  function Rolled(segs: seq<Seg>, limit: nat): (r: seq<Seg>)
    requires segs != []
    ensures r != []
  {
    if Full(Last(segs), limit) then segs + [Seg(Next(segs), [])] else segs
  }

  /** More events in the active segment. */
  function Grown(segs: seq<Seg>, events: seq<Event>): (r: seq<Seg>)
    requires segs != []
    ensures |r| == |segs|
  {
    segs[|segs| - 1 := Seg(Last(segs).base, Last(segs).recs + Stamp(Next(segs), events))]
  }

  /** One event at a time, stopping at one that cannot be framed. */
  function AppendEach(segs: seq<Seg>, events: seq<Event>, limit: nat): (r: seq<Seg>)
    requires segs != []
    ensures r != []
    decreases |events|
  {
    if events == [] then segs
    else if !Framable(events[0]) then Rolled(segs, limit)
    else AppendEach(Grown(Rolled(segs, limit), events[..1]), events[1..], limit)
  }

  /** How many events come before the first that cannot be framed. */
  function Accepted(events: seq<Event>): (n: nat)
    ensures n <= |events|
    ensures forall i :: 0 <= i < n ==> Framable(events[i])
    ensures n < |events| ==> !Framable(events[n])
  {
    if events == [] || !Framable(events[0]) then 0 else 1 + Accepted(events[1..])
  }

  lemma NextAfterGrown(segs: seq<Seg>, events: seq<Event>)
    requires segs != []
    ensures Next(Grown(segs, events)) == Next(segs) + |events|
    ensures Last(Grown(segs, events)) == Seg(Last(segs).base, Last(segs).recs + Stamp(Next(segs), events))
  {
  }

  lemma GrownNothing(segs: seq<Seg>)
    requires segs != []
    ensures Grown(segs, []) == segs
  {
    assert Last(segs).recs + Stamp(Next(segs), []) == Last(segs).recs;
    assert segs[|segs| - 1 := Last(segs)] == segs;
  }

  lemma GrownTwice(segs: seq<Seg>, a: seq<Event>, b: seq<Event>)
    requires segs != []
    ensures Grown(Grown(segs, a), b) == Grown(segs, a + b)
  {
    NextAfterGrown(segs, a);
    var n := Next(segs);
    assert Stamp(n, a + b) == Stamp(n, a) + Stamp(n + |a|, b);
    assert Last(segs).recs + Stamp(n, a) + Stamp(n + |a|, b) == Last(segs).recs + Stamp(n, a + b);
  }

  lemma SizeAfterOne(segs: seq<Seg>, e: Event)
    requires segs != []
    ensures |EncodeAll(Last(Grown(segs, [e])).recs)| == |EncodeAll(Last(segs).recs)| + RecordLen(e)
  {
    hide EncodeAll;
    NextAfterGrown(segs, [e]);
    var one := Rec(Next(segs), e);
    assert Stamp(Next(segs), [e]) == [one];
    EncodeAllConcat(Last(segs).recs, [one]);
    EncodeAllOne(one);
  }

  /** A full segment is rolled once. */
  lemma RollFirst(segs: seq<Seg>, events: seq<Event>, limit: nat)
    requires segs != [] && events != [] && limit > 0
    ensures !Full(Last(Rolled(segs, limit)), limit)
    ensures AppendEach(Rolled(segs, limit), events, limit) == AppendEach(segs, events, limit)
  {
    hide Rolled, Grown, Framable, Full;
    RolledOnce(segs, limit);
  }

  lemma RolledOnce(segs: seq<Seg>, limit: nat)
    requires segs != [] && limit > 0
    ensures !Full(Last(Rolled(segs, limit)), limit)
    ensures Rolled(Rolled(segs, limit), limit) == Rolled(segs, limit)
  {
  }

  /**
   * One `AppendAll` on a segment with room takes a non-empty prefix or refuses the first
   * event, and leaves the rest of the batch to be appended exactly as it would have been.
   */
  lemma {:induction false} OneWrite(segs: seq<Seg>, events: seq<Event>, limit: nat)
    requires segs != [] && events != [] && !Full(Last(segs), limit)
    ensures var size := |EncodeAll(Last(segs).recs)|;
            var k := Taken(size, limit, events);
            var grown := Grown(segs, events[..k]);
            && (StopsAtRefusal(size, limit, events) ==>
                  AppendEach(segs, events, limit) == grown && Accepted(events) == k < |events|)
            && (!StopsAtRefusal(size, limit, events) ==>
                  && k > 0
                  && AppendEach(segs, events, limit) == AppendEach(grown, events[k..], limit)
                  && Accepted(events) == k + Accepted(events[k..]))
    decreases |events|
  {
    hide EncodeAll, Grown, Last, Taken, StopsAtRefusal, AppendEach, Accepted, Framable, Full;
    var size, e, one := |EncodeAll(Last(segs).recs)|, events[0], Grown(segs, events[..1]);
    FirstEvent(segs, events, limit);
    FirstTaken(size, limit, events);
    if !Framable(e) {
      GrownNothing(segs);
      assert events[..0] == [];
    } else {
      assert events[..1] == [e];
      SizeAfterOne(segs, e);
      if size + RecordLen(e) < limit && |events| > 1 {
        NotFullYet(one, limit);
        OneWrite(one, events[1..], limit);
        var k := Taken(size, limit, events);
        GrownTwice(segs, [e], events[1..][..k - 1]);
        assert [e] + events[1..][..k - 1] == events[..k];
        assert events[1..][k - 1..] == events[k..];
      }
    }
  }

  lemma NotFullYet(segs: seq<Seg>, limit: nat)
    requires segs != [] && |EncodeAll(Last(segs).recs)| < limit
    ensures !Full(Last(segs), limit)
  {
    hide EncodeAll, Last;
  }

  /** The first event of a batch, with room for it. */
  lemma FirstEvent(segs: seq<Seg>, events: seq<Event>, limit: nat)
    requires segs != [] && events != [] && !Full(Last(segs), limit)
    ensures !Framable(events[0]) ==> AppendEach(segs, events, limit) == segs && Accepted(events) == 0
    ensures Framable(events[0]) ==>
              && AppendEach(segs, events, limit) == AppendEach(Grown(segs, events[..1]), events[1..], limit)
              && Accepted(events) == 1 + Accepted(events[1..])
  {
    hide Framable, Grown, Full;
  }

  lemma FirstTaken(size: nat, limit: nat, events: seq<Event>)
    requires events != []
    ensures !Framable(events[0]) ==> Taken(size, limit, events) == 0 && StopsAtRefusal(size, limit, events)
    ensures Framable(events[0]) && size + RecordLen(events[0]) < limit && |events| > 1 ==>
              && Taken(size, limit, events) == 1 + Taken(size + RecordLen(events[0]), limit, events[1..])
              && StopsAtRefusal(size, limit, events) == StopsAtRefusal(size + RecordLen(events[0]), limit, events[1..])
    ensures Framable(events[0]) && !(size + RecordLen(events[0]) < limit && |events| > 1) ==>
              Taken(size, limit, events) == 1 && !StopsAtRefusal(size, limit, events)
  {
    hide Framable;
    if |events| == 1 {
      assert events[1..] == [];
    }
  }

  /** Appending a batch in one call or split between two calls is the same, if the first is accepted whole. */
  lemma {:induction false} AppendInTwoCalls(segs: seq<Seg>, a: seq<Event>, b: seq<Event>, limit: nat)
    requires segs != [] && Accepted(a) == |a|
    ensures AppendEach(segs, a + b, limit) == AppendEach(AppendEach(segs, a, limit), b, limit)
    decreases |a|
  {
    hide Framable, Grown, Rolled;
    if a == [] {
      assert a + b == b;
    } else {
      assert (a + b)[..1] == a[..1] && (a + b)[1..] == a[1..] + b;
      AppendInTwoCalls(Grown(Rolled(segs, limit), a[..1]), a[1..], b, limit);
    }
  }

  ghost predicate AddedFrom(rs: seq<Rec>, from: nat, next: nat) {
    forall j :: from <= j < |rs| ==> rs[j].offset >= next
  }

  /** `b` is `a` with records added at its end and nothing else: no segment moves, and no offset is used again. */
  ghost predicate Extends(a: seq<Seg>, b: seq<Seg>) {
    && a != [] && |a| <= |b|
    && (forall i :: 0 <= i < |a| ==> b[i].base == a[i].base)
    && (forall i :: 0 <= i < |a| - 1 ==> b[i] == a[i])
    && Last(a).recs <= b[|a| - 1].recs
    && Next(a) <= Next(b)
    && AddedFrom(b[|a| - 1].recs, |Last(a).recs|, Next(a))
    && (forall i, r :: |a| <= i < |b| && r in b[i].recs ==> r.offset >= Next(a))
  }

  lemma RolledExtends(segs: seq<Seg>, limit: nat)
    requires segs != []
    ensures Extends(segs, Rolled(segs, limit))
  {
    hide Full;
    var r := Rolled(segs, limit);
    assert r[|segs| - 1] == Last(segs);
  }

  lemma GrownExtends(segs: seq<Seg>, events: seq<Event>)
    requires segs != []
    ensures Extends(segs, Grown(segs, events))
  {
    NextAfterGrown(segs, events);
  }

  lemma ExtendsTwice(a: seq<Seg>, b: seq<Seg>, c: seq<Seg>)
    requires Extends(a, b) && Extends(b, c)
    ensures Extends(a, c)
  {
    hide Next;
    var n := |a| - 1;
    if |a| < |b| {
      assert c[n] == b[n];
    } else {
      forall j | |Last(a).recs| <= j < |c[n].recs| ensures c[n].recs[j].offset >= Next(a) {
        if j < |b[n].recs| {
          assert c[n].recs[j] == b[n].recs[j];
        }
      }
    }
    forall i, r | |a| <= i < |c| && r in c[i].recs ensures r.offset >= Next(a) {
      if i < |b| - 1 {
        assert c[i] == b[i];
      } else if i == |b| - 1 {
        var j :| 0 <= j < |c[i].recs| && c[i].recs[j] == r;
        if j < |b[i].recs| {
          assert b[i].recs[j] == r;
        }
      }
    }
  }

  /** Appending only ever extends. */
  lemma {:induction false} AppendExtends(segs: seq<Seg>, events: seq<Event>, limit: nat)
    requires segs != []
    ensures Extends(segs, AppendEach(segs, events, limit))
    decreases |events|
  {
    hide Grown, Rolled, Extends, Framable;
    if events == [] {
      GrownNothing(segs);
      GrownExtends(segs, []);
    } else {
      var rolled := Rolled(segs, limit);
      RolledExtends(segs, limit);
      if Framable(events[0]) {
        var grown := Grown(rolled, events[..1]);
        GrownExtends(rolled, events[..1]);
        ExtendsTwice(segs, rolled, grown);
        AppendExtends(grown, events[1..], limit);
        ExtendsTwice(segs, grown, AppendEach(grown, events[1..], limit));
      }
    }
  }

  // ---- When the log rolls ----

  /**
   * On the way from `a` to `b` a segment was left behind once it held `size` bytes and no
   * sooner, and no record went into one that already did.
   */
  ghost predicate RollsAt(a: seq<Seg>, b: seq<Seg>, size: nat) {
    && a != [] && |a| <= |b|
    && (forall i :: |a| - 1 <= i < |b| - 1 ==> |EncodeAll(b[i].recs)| >= size)
    && (forall i, k :: |a| - 1 <= i < |b| && (if i == |a| - 1 then |Last(a).recs| else 0) <= k < |b[i].recs| ==>
          |EncodeAll(b[i].recs[..k])| < size)
  }

  lemma RollsNever(a: seq<Seg>, size: nat)
    requires a != []
    ensures RollsAt(a, a, size)
  {
  }

  lemma RollsTwice(a: seq<Seg>, b: seq<Seg>, c: seq<Seg>, size: nat)
    requires RollsAt(a, b, size) && RollsAt(b, c, size) && Extends(a, b) && Extends(b, c)
    ensures RollsAt(a, c, size)
  {
    hide EncodeAll, Next;
    forall i | |a| - 1 <= i < |c| - 1 ensures |EncodeAll(c[i].recs)| >= size {
      if i < |b| - 1 {
        assert c[i] == b[i];
      }
    }
    forall i, k | |a| - 1 <= i < |c| && (if i == |a| - 1 then |Last(a).recs| else 0) <= k < |c[i].recs|
      ensures |EncodeAll(c[i].recs[..k])| < size
    {
      if i < |b| - 1 {
        assert c[i] == b[i];
      } else if i == |b| - 1 && k < |b[i].recs| {
        assert c[i].recs[..k] == b[i].recs[..k];
      }
    }
  }

  lemma RolledAt(segs: seq<Seg>, limit: nat)
    requires segs != []
    ensures RollsAt(segs, Rolled(segs, limit), limit)
  {
    hide EncodeAll, Next;
    var r := Rolled(segs, limit);
    assert r[|segs| - 1] == Last(segs);
  }

  lemma GrownAt(segs: seq<Seg>, e: Event, limit: nat)
    requires segs != [] && !Full(Last(segs), limit)
    ensures RollsAt(segs, Grown(segs, [e]), limit)
  {
    hide EncodeAll;
    NextAfterGrown(segs, [e]);
    var rs := Last(segs).recs;
    assert Grown(segs, [e])[|segs| - 1].recs[..|rs|] == rs;
  }

  /** Appending rolls a segment exactly when it holds as many bytes as segments are to. */
  lemma {:induction false} RollsWhenFull(segs: seq<Seg>, events: seq<Event>, limit: nat)
    requires segs != [] && limit > 0
    ensures var r := AppendEach(segs, events, limit);
            && RollsAt(segs, r, limit)
            && (Accepted(events) == |events| && events != [] ==> Last(r).recs != [])
            && (Accepted(events) < |events| ==> |EncodeAll(Last(r).recs)| < limit)
    decreases |events|
  {
    hide Grown, Rolled, Extends, Framable, RollsAt, EncodeAll;
    if events == [] {
      RollsNever(segs, limit);
    } else {
      var rolled, r := Rolled(segs, limit), AppendEach(segs, events, limit);
      RolledAt(segs, limit);
      RolledOnce(segs, limit);
      RolledExtends(segs, limit);
      if Framable(events[0]) {
        var grown := Grown(rolled, events[..1]);
        assert events[..1] == [events[0]];
        GrownAt(rolled, events[0], limit);
        GrownExtends(rolled, events[..1]);
        RollsTwice(segs, rolled, grown, limit);
        ExtendsTwice(segs, rolled, grown);
        RollsWhenFull(grown, events[1..], limit);
        AppendExtends(grown, events[1..], limit);
        RollsTwice(segs, grown, r, limit);
        NextAfterGrown(rolled, events[..1]);
      }
    }
  }
}
